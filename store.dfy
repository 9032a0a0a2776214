/** The relational store as in-memory tables: one map from row id to row
    per table. A committed transaction is one update of these maps. Rows
    are scanned in ascending id, as SQLite scans a table by rowid, and a new
    row takes the largest id in its table plus one (1 in an empty table),
    as SQLite assigns rowids. */
module Store {
  import opened Common
  import opened Models

  // ---------------------------------------------------------------------
  // Constraints the schema declares

  /** `livros.isbn` is unique. */
  ghost predicate IsbnUnique(livros: map<int, Livro>) {
    forall a, b :: a in livros && b in livros && a != b ==> livros[a].isbn != livros[b].isbn
  }

  /** Two profiles that share an email, a CPF or a registration number.
      A NULL never equals another NULL under a unique index. */
  predicate ProfileClash(u: Usuario, v: Usuario) {
    || u.email == v.email
    || (u.cpf.Some? && u.cpf == v.cpf)
    || (u.matricula.Some? && u.matricula == v.matricula)
  }

  /** `usuarios.email`, `usuarios.cpf` and `usuarios.matricula` are each
      unique. */
  ghost predicate ProfilesUnique(usuarios: map<int, Usuario>) {
    forall a, b :: a in usuarios && b in usuarios && a != b ==> !ProfileClash(usuarios[a], usuarios[b])
  }

  /** Writing `u` as row `id` keeps the profile unique indexes: the check
      the database makes at commit time. */
  predicate FitsProfiles(usuarios: map<int, Usuario>, id: int, u: Usuario) {
    forall b :: b in usuarios && b != id ==> !ProfileClash(u, usuarios[b])
  }

  /** Inserting `u` as a new row keeps the profile unique indexes. */
  predicate CanInsertProfile(usuarios: map<int, Usuario>, u: Usuario) {
    forall b :: b in usuarios ==> !ProfileClash(u, usuarios[b])
  }

  /** The NOT NULL constraints of `usuarios` on CPF and registration
      number, checked at commit. The profile rows keep both optional, so
      that a body missing either can be refused; the automatic profile of
      a loan request is the one write that does not check them. */
  predicate NotNullHolds(u: Usuario) {
    u.cpf.Some? && u.matricula.Some?
  }

  /** Account emails are unique. */
  ghost predicate AccountEmailsUnique(contas: map<int, UsuarioAuth>) {
    forall a, b :: a in contas && b in contas && a != b ==> contas[a].email != contas[b].email
  }

  /** Some account stores exactly this email. */
  predicate EmailStored(contas: map<int, UsuarioAuth>, email: string) {
    exists k :: k in contas && contas[k].email == email
  }

  /** A new account whose email is not stored keeps account emails unique. */
  lemma InsertAccountKeepsUnique(contas: map<int, UsuarioAuth>, id: int, a: UsuarioAuth)
    requires AccountEmailsUnique(contas) && id !in contas && !EmailStored(contas, a.email)
    ensures AccountEmailsUnique(contas[id := a])
  {
  }

  /** Rewriting an account without changing its email keeps account emails
      unique. */
  lemma RewriteAccountKeepsUnique(contas: map<int, UsuarioAuth>, id: int, a: UsuarioAuth)
    requires AccountEmailsUnique(contas) && id in contas && a.email == contas[id].email
    ensures AccountEmailsUnique(contas[id := a])
  {
  }

  /** Publisher names are unique (kept by the publisher handlers). */
  ghost predicate PublisherNamesUnique(editoras: map<int, Editora>) {
    forall a, b :: a in editoras && b in editoras && a != b ==> editoras[a].nome != editoras[b].nome
  }

  lemma ProfileWriteKeepsUnique(usuarios: map<int, Usuario>, id: int, u: Usuario)
    requires ProfilesUnique(usuarios) && FitsProfiles(usuarios, id, u)
    ensures ProfilesUnique(usuarios[id := u])
  {
  }

  /** A publisher reference that the book handlers check: one that is
      present and non-zero (zero is falsy and is stored unchecked). */
  predicate Checked(editoraId: Option<int>) {
    editoraId.Some? && editoraId.value != 0
  }

  /** Every book names an existing author and, when its publisher
      reference is checked, an existing publisher. */
  ghost predicate CatalogueRefsExist(livros: map<int, Livro>, autores: map<int, Autor>, editoras: map<int, Editora>) {
    forall b :: b in livros ==>
      livros[b].autorId in autores && (Checked(livros[b].editoraId) ==> livros[b].editoraId.value in editoras)
  }

  // ---------------------------------------------------------------------
  // The loan/book agreement

  /** Some active loan references book `livroId`. */
  ghost predicate HasActiveLoanOf(emprestimos: map<int, Emprestimo>, livroId: int) {
    exists e :: e in emprestimos && emprestimos[e].livroId == livroId && emprestimos[e].status == Ativo
  }

  /** A book is lent out exactly when an active loan references it, and no
      two active loans reference the same book. */
  ghost predicate LoansMatchBooks(livros: map<int, Livro>, emprestimos: map<int, Emprestimo>) {
    && (forall b :: b in livros ==> (livros[b].status == Emprestado <==> HasActiveLoanOf(emprestimos, b)))
    && (forall e1, e2 ::
          e1 in emprestimos && e2 in emprestimos && e1 != e2
          && emprestimos[e1].status == Ativo && emprestimos[e2].status == Ativo
          ==> emprestimos[e1].livroId != emprestimos[e2].livroId)
  }

  /** Every active loan references a book that exists. */
  ghost predicate ActiveLoansResolve(livros: map<int, Livro>, emprestimos: map<int, Emprestimo>) {
    forall e :: e in emprestimos && emprestimos[e].status == Ativo ==> emprestimos[e].livroId in livros
  }

  // ---------------------------------------------------------------------
  // Rows that reference books and profiles

  /** Some loan, in any state, references book `livroId`. The relationship
      `Livro.emprestimos` has no delete cascade, so deleting the book makes
      the ORM set that loan's NOT NULL `livro_id` to NULL and the commit
      fails. */
  predicate LoanReferencesBook(emprestimos: map<int, Emprestimo>, livroId: int) {
    exists e :: e in emprestimos && emprestimos[e].livroId == livroId
  }

  /** Some loan or reservation references profile `usuarioId`; deleting the
      profile fails at commit for the same reason. */
  predicate RowReferencesProfile(emprestimos: map<int, Emprestimo>, reservas: map<int, Reserva>, usuarioId: int) {
    || (exists e :: e in emprestimos && emprestimos[e].usuarioId == usuarioId)
    || (exists k :: k in reservas && reservas[k].usuarioId == usuarioId)
  }

  /** Every loan references an existing book and profile, and every
      reservation an existing profile: the references a delete cannot
      break. Reservations of a deleted book stay, since `Reserva.livro`
      has no collection on the book's side. */
  ghost predicate ReferencesExist(livros: map<int, Livro>, usuarios: map<int, Usuario>,
                                  emprestimos: map<int, Emprestimo>, reservas: map<int, Reserva>)
  {
    && (forall e :: e in emprestimos ==> emprestimos[e].livroId in livros && emprestimos[e].usuarioId in usuarios)
    && (forall k :: k in reservas ==> reservas[k].usuarioId in usuarios)
  }

  /** Lending an available book: the new active loan is the only one that
      references it, so the agreement still holds once it is marked lent. */
  lemma LendKeepsAgreement(livros: map<int, Livro>, emprestimos: map<int, Emprestimo>, id: int, e: Emprestimo)
    requires LoansMatchBooks(livros, emprestimos)
    requires e.livroId in livros && livros[e.livroId].status == Disponivel
    requires id !in emprestimos && e.status == Ativo
    ensures LoansMatchBooks(livros[e.livroId := livros[e.livroId].(status := Emprestado)], emprestimos[id := e])
  {
    var b := e.livroId;
    var livros', emprestimos' := livros[b := livros[b].(status := Emprestado)], emprestimos[id := e];
    assert emprestimos'[id].livroId == b;
    forall c | c in livros'
      ensures livros'[c].status == Emprestado <==> HasActiveLoanOf(emprestimos', c)
    {
      if c != b {
        if HasActiveLoanOf(emprestimos', c) {
          var k :| k in emprestimos' && emprestimos'[k].livroId == c && emprestimos'[k].status == Ativo;
          assert k in emprestimos && emprestimos[k] == emprestimos'[k];
        }
        if HasActiveLoanOf(emprestimos, c) {
          var k :| k in emprestimos && emprestimos[k].livroId == c && emprestimos[k].status == Ativo;
          assert k in emprestimos' && emprestimos'[k] == emprestimos[k];
        }
      }
    }
  }

  /** Closing an active loan: it was the only active loan of its book, so
      marking that book available (when it still exists) keeps the
      agreement. */
  lemma ReturnKeepsAgreement(livros: map<int, Livro>, emprestimos: map<int, Emprestimo>, id: int, e: Emprestimo)
    requires LoansMatchBooks(livros, emprestimos)
    requires id in emprestimos && emprestimos[id].status == Ativo
    requires e.livroId == emprestimos[id].livroId && e.status != Ativo
    ensures var b := e.livroId;
      LoansMatchBooks(if b in livros then livros[b := livros[b].(status := Disponivel)] else livros, emprestimos[id := e])
  {
    var b := e.livroId;
    var livros' := if b in livros then livros[b := livros[b].(status := Disponivel)] else livros;
    var emprestimos' := emprestimos[id := e];
    forall c | c in livros'
      ensures livros'[c].status == Emprestado <==> HasActiveLoanOf(emprestimos', c)
    {
      if HasActiveLoanOf(emprestimos', c) {
        var k :| k in emprestimos' && emprestimos'[k].livroId == c && emprestimos'[k].status == Ativo;
        assert k != id && emprestimos[k] == emprestimos'[k];
        assert c != b;
      }
      if c != b && HasActiveLoanOf(emprestimos, c) {
        var k :| k in emprestimos && emprestimos[k].livroId == c && emprestimos[k].status == Ativo;
        assert k != id && emprestimos'[k] == emprestimos[k];
      }
    }
  }

  // ---------------------------------------------------------------------
  // The tables

  class Db {
    var livros: map<int, Livro>
    var usuarios: map<int, Usuario>
    var contas: map<int, UsuarioAuth>
    var emprestimos: map<int, Emprestimo>
    var reservas: map<int, Reserva>
    var solicitacoes: map<int, SolicitacaoAutor>
    var autores: map<int, Autor>
    var editoras: map<int, Editora>

    /** The constraints every committed state satisfies. */
    ghost predicate Valid()
      reads this
    {
      && IsbnUnique(livros)
      && ProfilesUnique(usuarios)
      && AccountEmailsUnique(contas)
      && PublisherNamesUnique(editoras)
    }

    ghost predicate LoansConsistent()
      reads this
    {
      LoansMatchBooks(livros, emprestimos)
    }

    ghost predicate RefsConsistent()
      reads this
    {
      CatalogueRefsExist(livros, autores, editoras)
    }

    /** An empty database. */
    constructor ()
      ensures Valid() && LoansConsistent() && RefsConsistent()
      ensures livros == map[] && usuarios == map[] && contas == map[] && emprestimos == map[]
      ensures reservas == map[] && solicitacoes == map[] && autores == map[] && editoras == map[]
    {
      livros, usuarios, contas, emprestimos := map[], map[], map[], map[];
      reservas, solicitacoes, autores, editoras := map[], map[], map[], map[];
    }
  }

  // ---------------------------------------------------------------------
  // Row ids and scans

  lemma EmptyOrMember(s: set<int>)
    ensures s == {} || exists k :: k in s
  {
    if forall j :: j !in s {
      assert s == {};
    }
  }

  /** The id the next inserted row receives: one more than the largest id
      in the table, or 1 in an empty table. */
  method NewId<V>(m: map<int, V>) returns (id: int)
    ensures id !in m
    ensures forall k :: k in m ==> k < id
    ensures m.Keys == {} ==> id == 1
    ensures m.Keys != {} ==> id - 1 in m
  {
    if m.Keys == {} {
      return 1;
    }
    EmptyOrMember(m.Keys);
    var k0 :| k0 in m.Keys;
    var top := k0;
    var rest := m.Keys - {k0};
    while rest != {}
      invariant rest <= m.Keys && top in m
      invariant forall k :: k in m && k !in rest ==> k <= top
      decreases rest
    {
      EmptyOrMember(rest);
      var k :| k in rest;
      if k > top {
        top := k;
      }
      rest := rest - {k};
    }
    id := top + 1;
  }

  /** The smallest element of a non-empty set of ids. */
  method Least(s: set<int>) returns (least: int)
    requires s != {}
    ensures least in s
    ensures forall k :: k in s ==> least <= k
  {
    EmptyOrMember(s);
    least :| least in s;
    var rest := s - {least};
    while rest != {}
      invariant rest <= s && least in s
      invariant forall k :: k in s && k !in rest ==> least <= k
      decreases rest
    {
      EmptyOrMember(rest);
      var k :| k in rest;
      if k < least {
        least := k;
      }
      rest := rest - {k};
    }
  }

  predicate StrictlyIncreasing(ks: seq<int>) {
    forall i, j :: 0 <= i < j < |ks| ==> ks[i] < ks[j]
  }

  predicate IsLeast(m: int, s: set<int>) {
    m in s && forall x :: x in s ==> m <= x
  }

  /** Every non-empty set of ids has a least element. */
  lemma {:induction false} LeastOf(s: set<int>) returns (m: int)
    requires s != {}
    ensures IsLeast(m, s)
    decreases s
  {
    EmptyOrMember(s);
    var y :| y in s;
    var rest := s - {y};
    if rest == {} {
      assert s == {y};
      m := y;
    } else {
      var r := LeastOf(rest);
      m := if y < r then y else r;
      forall x | x in s ensures m <= x {
        if x != y {
          assert x in rest;
        }
      }
    }
  }

  lemma LeastExists(s: set<int>)
    requires s != {}
    ensures exists m :: IsLeast(m, s)
  {
    var m := LeastOf(s);
  }

  /** The ids of a table in ascending order: the order of a scan by rowid. */
  ghost function SortedSet(s: set<int>): (r: seq<int>)
    ensures StrictlyIncreasing(r)
    ensures forall k :: k in r <==> k in s
    ensures forall i :: 0 <= i < |r| ==> r[i] in s
    decreases s
  {
    if s == {} then []
    else
      LeastExists(s);
      var m :| IsLeast(m, s);
      var rest := SortedSet(s - {m});
      assert forall i :: 0 <= i < |rest| ==> m < rest[i] by {
        forall i | 0 <= i < |rest| ensures m < rest[i] {
          assert rest[i] in s - {m};
        }
      }
      [m] + rest
  }

  ghost function SortedKeys<V>(m: map<int, V>): seq<int> {
    SortedSet(m.Keys)
  }

  /** Two strictly increasing sequences with the same elements are equal:
      a scan's order is determined by the ids it returns. */
  lemma {:induction false} IncreasingUnique(a: seq<int>, b: seq<int>)
    requires StrictlyIncreasing(a) && StrictlyIncreasing(b)
    requires forall k :: k in a <==> k in b
    ensures a == b
  {
    if a != [] {
      assert a[0] in a;
    }
    if b != [] {
      assert b[0] in b;
    }
    if a != [] {
      assert a[0] == b[0] by {
        assert a[0] in b && b[0] in a;
        var i :| 0 <= i < |b| && b[i] == a[0];
        var j :| 0 <= j < |a| && a[j] == b[0];
        assert b[0] <= a[0] && a[0] <= b[0];
      }
      forall k ensures k in a[1..] <==> k in b[1..] {
        if k in a[1..] {
          var i :| 0 <= i < |a[1..]| && a[1..][i] == k;
          assert a[i + 1] == k && a[0] < k;
          assert k in b;
          var j :| 0 <= j < |b| && b[j] == k;
          assert j != 0;
          assert b[1..][j - 1] == k;
        }
        if k in b[1..] {
          var i :| 0 <= i < |b[1..]| && b[1..][i] == k;
          assert b[i + 1] == k && b[0] < k;
          assert k in a;
          var j :| 0 <= j < |a| && a[j] == k;
          assert j != 0;
          assert a[1..][j - 1] == k;
        }
      }
      IncreasingUnique(a[1..], b[1..]);
      assert a == [a[0]] + a[1..] && b == [b[0]] + b[1..];
    }
  }

  /** A scan with a filter: the ids of the rows whose value satisfies `p`,
      in ascending id order. */
  method Scan<V>(m: map<int, V>, p: V -> bool) returns (ks: seq<int>)
    ensures StrictlyIncreasing(ks)
    ensures forall k :: k in ks <==> k in m && p(m[k])
    ensures ks == SortedSet(set k | k in m && p(m[k]))
  {
    ks := [];
    var rest := set k | k in m && p(m[k]);
    ghost var all := rest;
    while rest != {}
      invariant rest <= all
      invariant forall k :: k in all <==> k in ks || k in rest
      invariant StrictlyIncreasing(ks)
      invariant forall i, k :: 0 <= i < |ks| && k in rest ==> ks[i] < k
      decreases rest
    {
      var k := Least(rest);
      ks := ks + [k];
      rest := rest - {k};
    }
    IncreasingUnique(ks, SortedSet(all));
  }

  /** `.first()` on a filtered query: the lowest id whose row satisfies
      `p`, if any. */
  method First<V>(m: map<int, V>, p: V -> bool) returns (r: Option<int>)
    ensures r.Some? ==> r.value in m && p(m[r.value])
    ensures r.Some? ==> forall k :: k in m && p(m[k]) ==> r.value <= k
    ensures r.None? ==> forall k :: k in m ==> !p(m[k])
  {
    var ks := Scan(m, p);
    if ks == [] {
      return None;
    }
    assert forall k :: k in m && p(m[k]) ==> ks[0] <= k by {
      forall k | k in m && p(m[k]) ensures ks[0] <= k {
        var i :| 0 <= i < |ks| && ks[i] == k;
      }
    }
    r := Some(ks[0]);
  }
}
