/** The display formatters of the web front end (app/static/js/main.js):
    CPF numbers and phone numbers. A missing value is the empty string,
    which both formatters turn into the empty string. */
module Formatting {
  import opened Common
  import opened Text

  // ---------------------------------------------------------------------
  // CPF

  /** Eleven digits start at index `i` of `s`. */
  predicate RunAt(s: string, i: int) {
    0 <= i && i + 11 <= |s| && AllDigits(s[i..i + 11])
  }

  /** The leftmost index at or after `from` where eleven digits start: the
      match a regular expression of eleven digits finds. */
  function FindRun(s: string, from: nat): (r: Option<nat>)
    ensures r.Some? ==> from <= r.value && RunAt(s, r.value)
    ensures r.Some? ==> forall j :: from <= j < r.value ==> !RunAt(s, j)
    ensures r.None? ==> forall j :: from <= j ==> !RunAt(s, j)
    decreases |s| - from
  {
    if from + 11 > |s| then None
    else if AllDigits(s[from..from + 11]) then Some(from)
    else FindRun(s, from + 1)
  }

  /** Eleven digits written as ddd.ddd.ddd-dd. */
  function PunctuateCpf(d: string): string
    requires |d| == 11
  {
    d[..3] + "." + d[3..6] + "." + d[6..9] + "-" + d[9..]
  }

  /** `formatarCPF`: the first run of eleven digits is punctuated in place;
      a string without one is returned as it is. */
  function FormatarCPF(cpf: string): string {
    if cpf == "" then ""
    else match FindRun(cpf, 0)
      case None => cpf
      case Some(i) => cpf[..i] + PunctuateCpf(cpf[i..i + 11]) + cpf[i + 11..]
  }

  lemma DigitsOfLiterals()
    ensures Digits(".") == [] && Digits("-") == [] && Digits("(") == [] && Digits(") ") == []
  {
    assert Digits(") ") == Digits(" ");
  }

  /** A separator without digits adds none. */
  lemma DigitsAround(x: string, sep: string, y: string)
    requires Digits(sep) == []
    ensures Digits(x + sep + y) == Digits(x) + Digits(y)
  {
    DigitsAppend(x + sep, y);
    DigitsAppend(x, sep);
  }

  /** The punctuation added to eleven digits holds no digits. */
  lemma PunctuateCpfDigits(d: string)
    requires |d| == 11 && AllDigits(d)
    ensures Digits(PunctuateCpf(d)) == d
    ensures |PunctuateCpf(d)| == 14
  {
    DigitsOfLiterals();
    var a, b, c, e := d[..3], d[3..6], d[6..9], d[9..];
    assert AllDigits(a) && AllDigits(b) && AllDigits(c) && AllDigits(e);
    DigitsAround(a, ".", b);
    DigitsAround(a + "." + b, ".", c);
    DigitsAround(a + "." + b + "." + c, "-", e);
    assert a + b + c + e == d;
  }

  /** Formatting a CPF only adds punctuation: its digits are unchanged. */
  lemma CpfKeepsDigits(cpf: string)
    ensures Digits(FormatarCPF(cpf)) == Digits(cpf)
  {
    if cpf != "" {
      var f := FindRun(cpf, 0);
      if f.Some? {
        var i := f.value;
        var pre, run, post := cpf[..i], cpf[i..i + 11], cpf[i + 11..];
        PunctuateCpfDigits(run);
        DigitsAppend(pre + PunctuateCpf(run), post);
        DigitsAppend(pre, PunctuateCpf(run));
        DigitsAppend(pre + run, post);
        DigitsAppend(pre, run);
        assert pre + run + post == cpf;
      }
    }
  }

  /** Eleven digits become ddd.ddd.ddd-dd. */
  lemma CpfOfElevenDigits(cpf: string)
    requires |cpf| == 11 && AllDigits(cpf)
    ensures FormatarCPF(cpf) == cpf[..3] + "." + cpf[3..6] + "." + cpf[6..9] + "-" + cpf[9..]
  {
    assert RunAt(cpf, 0) by {
      assert cpf[0..11] == cpf;
    }
    assert cpf[..0] == [] && cpf[0..11] == cpf && cpf[11..] == [];
  }

  /** A string with no run of eleven digits is returned unchanged; one with
      a run grows by the three punctuation characters. */
  lemma CpfUnchangedWithoutRun(cpf: string)
    ensures (forall j :: !RunAt(cpf, j)) ==> FormatarCPF(cpf) == cpf
    ensures (exists j :: RunAt(cpf, j)) ==> |FormatarCPF(cpf)| == |cpf| + 3
  {
    if exists j :: RunAt(cpf, j) {
      var j :| RunAt(cpf, j);
      assert cpf != "";
      var i := FindRun(cpf, 0).value;
      PunctuateCpfDigits(cpf[i..i + 11]);
    }
  }

  // ---------------------------------------------------------------------
  // Phone numbers

  /** `formatarTelefone`: the digits are kept; eleven become
      (DD) DDDDD-DDDD, ten become (DD) DDDD-DDDD, and any other count
      returns the input unchanged. */
  function FormatarTelefone(telefone: string): string {
    if telefone == "" then ""
    else
      var n := Digits(telefone);
      if |n| == 11 then "(" + n[..2] + ") " + n[2..7] + "-" + n[7..]
      else if |n| == 10 then "(" + n[..2] + ") " + n[2..6] + "-" + n[6..]
      else telefone
  }

  /** Digits written as (ab) c-d hold exactly the digits a + b + c + d. */
  lemma PhoneDigits(a: string, b: string, c: string)
    requires AllDigits(a) && AllDigits(b) && AllDigits(c)
    ensures Digits("(" + a + ") " + b + "-" + c) == a + b + c
  {
    DigitsOfLiterals();
    var s1 := "(" + a;
    var s2 := s1 + ") ";
    var s3 := s2 + b;
    var s4 := s3 + "-";
    DigitsAppend("(", a);
    assert Digits(s1) == a;
    DigitsAppend(s1, ") ");
    assert Digits(s2) == a;
    DigitsAppend(s2, b);
    assert Digits(s3) == a + b;
    DigitsAppend(s3, "-");
    assert Digits(s4) == a + b;
    DigitsAppend(s4, c);
  }

  /** Formatting a phone number keeps its digits. */
  lemma TelefoneKeepsDigits(telefone: string)
    ensures Digits(FormatarTelefone(telefone)) == Digits(telefone)
  {
    var n := Digits(telefone);
    if telefone != "" && |n| == 11 {
      PhoneDigits(n[..2], n[2..7], n[7..]);
      assert n[..2] + n[2..7] + n[7..] == n;
    } else if telefone != "" && |n| == 10 {
      PhoneDigits(n[..2], n[2..6], n[6..]);
      assert n[..2] + n[2..6] + n[6..] == n;
    }
  }

  /** A mobile number (11 digits) formats to 15 characters and a landline
      (10 digits) to 14. */
  lemma TelefoneLength(telefone: string)
    ensures telefone != "" && |Digits(telefone)| == 11 ==> |FormatarTelefone(telefone)| == 15
    ensures telefone != "" && |Digits(telefone)| == 10 ==> |FormatarTelefone(telefone)| == 14
    ensures telefone == "" || (|Digits(telefone)| != 10 && |Digits(telefone)| != 11) ==>
      FormatarTelefone(telefone) == telefone
  {
  }

  /** Formatting an already formatted phone number changes nothing. */
  lemma TelefoneIdempotent(telefone: string)
    ensures FormatarTelefone(FormatarTelefone(telefone)) == FormatarTelefone(telefone)
  {
    var f := FormatarTelefone(telefone);
    TelefoneKeepsDigits(telefone);
    if telefone != "" && (|Digits(telefone)| == 10 || |Digits(telefone)| == 11) {
      assert f != "";
    }
  }
}
