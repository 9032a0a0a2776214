/** The administrator script (create_admin.py): generates an `ADMIN`
    registration number and creates an administrator account, or promotes
    the account that already has the given email. The interactive prompts
    are replaced by parameters holding the values they return. */
module CreateAdmin {
  import opened Common
  import opened Text
  import opened Models
  import opened Store

  /** SQL `m ilike 'ADMIN%'`: `m` starts with "admin", ignoring ASCII case. */
  predicate AdminLike(m: string) {
    "admin" <= Lower(m)
  }

  /** The longest suffix of `s` made only of digits. */
  function TrailingDigits(s: string): (r: string)
    ensures AllDigits(r)
    ensures |r| <= |s| && r == s[|s| - |r|..]
    ensures |r| < |s| ==> !IsDigit(s[|s| - |r| - 1])
  {
    if s == [] || !IsDigit(s[|s| - 1]) then []
    else
      var r := TrailingDigits(s[..|s| - 1]) + [s[|s| - 1]];
      assert r == s[|s| - |r|..];
      r
  }

  /** Appending digits extends the trailing digit run by them. */
  lemma {:induction false} TrailingDigitsAppend(p: string, d: string)
    requires AllDigits(d)
    ensures TrailingDigits(p + d) == TrailingDigits(p) + d
    decreases |d|
  {
    if d == [] {
      assert p + d == p;
    } else {
      var t, c := d[..|d| - 1], d[|d| - 1];
      var s := (p + t) + [c];
      assert p + d == s by {
        assert d == t + [c];
      }
      assert s[..|s| - 1] == p + t;
      TrailingDigitsAppend(p, t);
      assert TrailingDigits(s) == TrailingDigits(p + t) + [c];
    }
  }

  /** The number `re.search(r"(\d+)$", m)` finds: the run of digits that
      ends the string, or that ends it just before a final newline (where
      `$` also matches). None when there is no such run. */
  function AdminNumber(m: string): Option<int> {
    var base := if |m| > 0 && m[|m| - 1] == '\n' then m[..|m| - 1] else m;
    var d := TrailingDigits(base);
    if d == [] then None else Some(DecimalValue(d))
  }

  /** The number a stored registration number contributes: it must match
      `ADMIN%`, be non-empty and end in digits. */
  function AdminNumberOf(m: Option<string>): Option<int> {
    if m.Some? && AdminLike(m.value) && m.value != "" then AdminNumber(m.value) else None
  }

  /** `n` is the number of some account's registration number. */
  predicate IsAdminNumber(contas: map<int, UsuarioAuth>, n: int) {
    exists k :: k in contas && AdminNumberOf(contas[k].matricula) == Some(n)
  }

  /** `n` is one more than the largest number found, or 1 when none is. */
  ghost predicate IsNextAdminNumber(contas: map<int, UsuarioAuth>, n: int) {
    && (forall x :: IsAdminNumber(contas, x) ==> x < n)
    && (if exists x :: IsAdminNumber(contas, x) then IsAdminNumber(contas, n - 1) else n == 1)
  }

  /** Python's `f"ADMIN{n:03d}"`. */
  function AdminMatriculaFor(n: int): string {
    "ADMIN" + FormatInt(n, 3)
  }

  /** A generated `ADMIN` number reads back as its own number. */
  lemma {:induction false} AdminNumberRoundTrip(n: nat)
    ensures AdminLike(AdminMatriculaFor(n))
    ensures AdminNumberOf(Some(AdminMatriculaFor(n))) == Some(n)
  {
    var d := ZeroPad(Decimal(n), 3);
    var m := AdminMatriculaFor(n);
    assert m == "ADMIN" + d;
    assert Lower(m)[..5] == "admin";
    TrailingDigitsAppend("ADMIN", d);
    assert TrailingDigits("ADMIN") == [];
    assert m[|m| - 1] == d[|d| - 1];
    DecimalRoundTrip(n);
    ZeroPadValue(Decimal(n), 3);
  }

  /** A generated number larger than every number found differs from every
      registration number stored. */
  lemma {:induction false} AdminMatriculaFresh(contas: map<int, UsuarioAuth>, n: nat)
    requires forall x :: IsAdminNumber(contas, x) ==> x < n
    ensures forall k :: k in contas ==> contas[k].matricula != Some(AdminMatriculaFor(n))
  {
    AdminNumberRoundTrip(n);
    forall k | k in contas
      ensures contas[k].matricula != Some(AdminMatriculaFor(n))
    {
      if contas[k].matricula == Some(AdminMatriculaFor(n)) {
        assert IsAdminNumber(contas, n);
      }
    }
  }

  /** `generate_admin_matricula`: collects the trailing numbers of the
      registration numbers matching `ADMIN%` and formats `ADMIN` followed
      by one more than their maximum (1 when there are none), padded to
      three digits. The result is a registration number no account has. */
  method GenerateAdminMatricula(db: Db) returns (m: string)
    ensures exists n :: IsNextAdminNumber(db.contas, n) && m == AdminMatriculaFor(n)
    ensures forall k :: k in db.contas ==> db.contas[k].matricula != Some(m)
  {
    var ks := Scan(db.contas, (a: UsuarioAuth) => a.matricula.Some? && AdminLike(a.matricula.value));
    assert forall j :: 0 <= j < |ks| ==> ks[j] in ks;
    var nums: seq<int> := [];
    var i := 0;
    while i < |ks|
      invariant 0 <= i <= |ks|
      invariant forall x :: x in nums ==> x >= 0
      invariant forall x :: x in nums <==>
        exists j :: 0 <= j < i && AdminNumberOf(db.contas[ks[j]].matricula) == Some(x)
    {
      var mat := db.contas[ks[i]].matricula.value;
      if mat != "" {
        var found := AdminNumber(mat);
        if found.Some? {
          nums := nums + [found.value];
        }
      }
      i := i + 1;
    }
    forall x
      ensures x in nums <==> IsAdminNumber(db.contas, x)
    {
      if IsAdminNumber(db.contas, x) {
        var k :| k in db.contas && AdminNumberOf(db.contas[k].matricula) == Some(x);
        assert k in ks;
        var j :| 0 <= j < |ks| && ks[j] == k;
      }
    }
    var next := 1;
    if nums != [] {
      next := MaxOf(nums) + 1;
    }
    assert IsNextAdminNumber(db.contas, next);
    m := "ADMIN" + FormatInt(next, 3);
    AdminMatriculaFresh(db.contas, next);
  }

  /** The registration number is empty or missing (falsy in Python). */
  predicate Falsy(m: Option<string>) {
    m.None? || m.value == ""
  }

  /** An existing account after promotion: administrator, renamed when a
      name is given, given `matricula` only when it had none, and given the
      new hash only when a password is given. Its email is kept. */
  function Promote(a: UsuarioAuth, nome: string, matricula: string, senha: string, senhaHash: string): (r: UsuarioAuth)
    ensures r.isAdmin && r.email == a.email
    ensures r.nome == (if nome != "" then nome else a.nome)
    ensures r.matricula == (if Falsy(a.matricula) then Some(matricula) else a.matricula)
    ensures r.senhaHash == (if senha != "" then senhaHash else a.senhaHash)
    ensures r.criadoEm == a.criadoEm && r.ultimoLogin == a.ultimoLogin
  {
    a.(nome := if nome != "" then nome else a.nome,
       matricula := if Falsy(a.matricula) then Some(matricula) else a.matricula,
       senhaHash := if senha != "" then senhaHash else a.senhaHash,
       isAdmin := true)
  }

  /** Promoting an account twice with the same name, registration number
      and password hash gives the account of the first promotion. (The
      script itself hashes the password anew on each run, so a second run
      stores a freshly salted hash.) */
  lemma PromoteIdempotent(a: UsuarioAuth, nome: string, matricula: string, senha: string, senhaHash: string)
    ensures var p := Promote(a, nome, matricula, senha, senhaHash);
      Promote(p, nome, matricula, senha, senhaHash) == p
  {
  }

  /** The registration number the script uses: the one given, or the
      generated one when none is given. */
  ghost predicate ChosenMatricula(contas: map<int, UsuarioAuth>, given: string, m: string) {
    if given != "" then m == given else exists n :: IsNextAdminNumber(contas, n) && m == AdminMatriculaFor(n)
  }

  /** The create-or-promote step of `main`: the account whose email is
      exactly `email` is promoted; without one, an administrator account is
      inserted. Returns the account's id and whether it was created.
      `senhaHash` is the hash of `senha`, computed outside the model. */
  method UpsertAdmin(db: Db, email: string, senha: string, nome: string, matriculaDada: string,
                     senhaHash: string, now: int) returns (id: int, criado: bool)
    requires db.Valid()
    modifies db
    ensures db.Valid()
    ensures criado <==> !EmailStored(old(db.contas), email)
    ensures id in db.contas && db.contas[id].isAdmin && db.contas[id].email == email
    ensures !criado ==>
      && id in old(db.contas) && old(db.contas)[id].email == email
      && (exists m :: ChosenMatricula(old(db.contas), matriculaDada, m)
                      && db.contas == old(db.contas)[id := Promote(old(db.contas)[id], nome, m, senha, senhaHash)])
    ensures criado ==>
      && id !in old(db.contas)
      && (exists m :: ChosenMatricula(old(db.contas), matriculaDada, m)
                      && db.contas == old(db.contas)[id := UsuarioAuth(Some(m), nome, email, senhaHash, true, now, None)])
    ensures db.livros == old(db.livros) && db.usuarios == old(db.usuarios) && db.emprestimos == old(db.emprestimos)
    ensures db.reservas == old(db.reservas) && db.solicitacoes == old(db.solicitacoes)
    ensures db.autores == old(db.autores) && db.editoras == old(db.editoras)
  {
    var existing := First(db.contas, (a: UsuarioAuth) => a.email == email);
    var matricula := matriculaDada;
    if matricula == "" {
      matricula := GenerateAdminMatricula(db);
    }
    assert ChosenMatricula(db.contas, matriculaDada, matricula);
    if existing.Some? {
      id := existing.value;
      var novo := Promote(db.contas[id], nome, matricula, senha, senhaHash);
      RewriteAccountKeepsUnique(db.contas, id, novo);
      db.contas := db.contas[id := novo];
      criado := false;
    } else {
      id := NewId(db.contas);
      var novo := UsuarioAuth(Some(matricula), nome, email, senhaHash, true, now, None);
      InsertAccountKeepsUnique(db.contas, id, novo);
      db.contas := db.contas[id := novo];
      criado := true;
    }
  }
}
