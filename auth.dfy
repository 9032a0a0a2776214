/** Account registration (app/api/endpoints/auth.py): registration numbers
    made of the year followed by a sequence number of at least three
    digits, and the handler that registers an account with one. */
module Auth {
  import opened Common
  import opened Text
  import opened Models
  import opened Store

  /** The sequence number `generate_matricula` reads from registration
      number `m` in year `year`: `m` must start with the year's numeral, be
      at least 7 characters long, and what follows its first 4 characters
      must parse as an integer. Anything else contributes nothing. */
  function SuffixOf(m: Option<string>, year: nat): Option<int> {
    if m.Some? && Decimal(year) <= m.value && |m.value| >= 7 then ParseInt(m.value[4..]) else None
  }

  /** `n` is the sequence number of some account in year `year`. */
  predicate IsYearNumber(contas: map<int, UsuarioAuth>, year: nat, n: int) {
    exists k :: k in contas && SuffixOf(contas[k].matricula, year) == Some(n)
  }

  /** `n` is one more than the largest sequence number of the year, or 1
      when the year has none. */
  ghost predicate IsNextNumber(contas: map<int, UsuarioAuth>, year: nat, n: int) {
    && (forall x :: IsYearNumber(contas, year, x) ==> x < n)
    && (if exists x :: IsYearNumber(contas, year, x) then IsYearNumber(contas, year, n - 1) else n == 1)
  }

  /** The next number is determined by the accounts and the year. */
  lemma NextNumberUnique(contas: map<int, UsuarioAuth>, year: nat, a: int, b: int)
    requires IsNextNumber(contas, year, a) && IsNextNumber(contas, year, b)
    ensures a == b
  {
    if exists x :: IsYearNumber(contas, year, x) {
      assert IsYearNumber(contas, year, a - 1) && IsYearNumber(contas, year, b - 1);
    }
  }

  /** Python's `f"{year}{n:03d}"`. */
  function MatriculaFor(year: nat, n: int): string {
    Decimal(year) + FormatInt(n, 3)
  }

  /** A four-digit year has a four-character numeral. */
  lemma FourDigitYear(year: nat)
    requires 1000 <= year <= 9999
    ensures |Decimal(year)| == 4
  {
    assert |Decimal(year / 1000)| == 1;
    assert |Decimal(year / 100)| == 2;
    assert |Decimal(year / 10)| == 3;
  }

  /** The number generated for a four-digit year reads back as its own
      sequence number, so it is larger than every number already read and
      differs from every registration number stored. */
  lemma {:induction false} MatriculaFresh(contas: map<int, UsuarioAuth>, year: nat, n: int)
    requires 1000 <= year <= 9999
    requires forall x :: IsYearNumber(contas, year, x) ==> x < n
    ensures SuffixOf(Some(MatriculaFor(year, n)), year) == Some(n)
    ensures forall k :: k in contas ==> contas[k].matricula != Some(MatriculaFor(year, n))
  {
    var m := MatriculaFor(year, n);
    FourDigitYear(year);
    assert m[4..] == FormatInt(n, 3);
    FormatParseRoundTrip(n, 3);
    forall k | k in contas
      ensures contas[k].matricula != Some(m)
    {
      if contas[k].matricula == Some(m) {
        assert IsYearNumber(contas, year, n);
      }
    }
  }

  /** `generate_matricula`: scans the accounts whose registration number
      starts with the year, collects the sequence numbers that parse, and
      formats the year followed by one more than their maximum (1 when
      there are none), padded to three digits. For a four-digit year the
      result is a registration number no account has. */
  method GenerateMatricula(db: Db, year: nat) returns (m: string)
    ensures exists n :: IsNextNumber(db.contas, year, n) && m == MatriculaFor(year, n)
    ensures 1000 <= year <= 9999 ==> forall k :: k in db.contas ==> db.contas[k].matricula != Some(m)
  {
    var prefix := Decimal(year);
    var ks := Scan(db.contas, (a: UsuarioAuth) => a.matricula.Some? && prefix <= a.matricula.value);
    assert forall j :: 0 <= j < |ks| ==> ks[j] in ks;
    var numbers: seq<int> := [];
    var i := 0;
    while i < |ks|
      invariant 0 <= i <= |ks|
      invariant forall x :: x in numbers <==>
        exists j :: 0 <= j < i && SuffixOf(db.contas[ks[j]].matricula, year) == Some(x)
    {
      var mat := db.contas[ks[i]].matricula;
      if mat.Some? && |mat.value| >= 7 {
        var parsed := ParseInt(mat.value[4..]);
        if parsed.Some? {
          numbers := numbers + [parsed.value];
        }
      }
      i := i + 1;
    }
    forall x
      ensures x in numbers <==> IsYearNumber(db.contas, year, x)
    {
      if IsYearNumber(db.contas, year, x) {
        var k :| k in db.contas && SuffixOf(db.contas[k].matricula, year) == Some(x);
        assert k in ks;
        var j :| 0 <= j < |ks| && ks[j] == k;
      }
    }
    var next := if numbers != [] then MaxOf(numbers) + 1 else 1;
    assert IsNextNumber(db.contas, year, next);
    m := prefix + FormatInt(next, 3);
    if 1000 <= year <= 9999 {
      MatriculaFresh(db.contas, year, next);
    }
  }

  /** The account `register_user` inserts: not an administrator, with the
      generated registration number and the email lower-cased. */
  function NovaConta(matricula: string, nome: string, email: string, senhaHash: string, now: int): (a: UsuarioAuth)
    ensures a.matricula == Some(matricula) && a.email == Lower(email) && !a.isAdmin
    ensures a.nome == nome && a.senhaHash == senhaHash && a.criadoEm == now && a.ultimoLogin.None?
  {
    UsuarioAuth(Some(matricula), nome, Lower(email), senhaHash, false, now, None)
  }

  /** `register_user`: refused when the two passwords differ or when the
      lower-cased email is already stored; otherwise inserts an account
      with a freshly generated registration number. `senhaHash` is the
      password hash, computed outside the model. */
  method RegisterUser(db: Db, nome: string, email: string, senha: string, confirmarSenha: string,
                      senhaHash: string, year: nat, now: int) returns (r: Result<int>)
    requires db.Valid()
    modifies db
    ensures db.Valid()
    ensures senha != confirmarSenha ==> r == Err(BadRequest)
    ensures senha == confirmarSenha ==> (r.Ok? <==> !EmailStored(old(db.contas), Lower(email)))
    ensures r.Err? ==> r.error == BadRequest && unchanged(db)
    ensures r.Ok? ==>
      && r.value !in old(db.contas)
      && EmailStored(db.contas, Lower(email))
      && (exists n :: IsNextNumber(old(db.contas), year, n)
                      && db.contas == old(db.contas)[r.value := NovaConta(MatriculaFor(year, n), nome, email, senhaHash, now)])
      && db.livros == old(db.livros) && db.usuarios == old(db.usuarios) && db.emprestimos == old(db.emprestimos)
      && db.reservas == old(db.reservas) && db.solicitacoes == old(db.solicitacoes)
      && db.autores == old(db.autores) && db.editoras == old(db.editoras)
    ensures r.Ok? && 1000 <= year <= 9999 ==>
      forall k :: k in old(db.contas) ==> old(db.contas)[k].matricula != db.contas[r.value].matricula
  {
    if senha != confirmarSenha {
      return Err(BadRequest);
    }
    var lowered := Lower(email);
    var existing := First(db.contas, (a: UsuarioAuth) => a.email == lowered);
    if existing.Some? {
      var k := existing.value;
      assert k in db.contas && db.contas[k].email == lowered;
      return Err(BadRequest);
    }
    var matricula := GenerateMatricula(db, year);
    var id := NewId(db.contas);
    var nova := NovaConta(matricula, nome, email, senhaHash, now);
    InsertAccountKeepsUnique(db.contas, id, nova);
    db.contas := db.contas[id := nova];
    assert db.contas[id].email == lowered;
    r := Ok(id);
  }
}
