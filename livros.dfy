/** The book catalogue (app/api/endpoints/livros.py): admins create,
    update and delete books, guarded by the author and publisher existence
    checks and the uniqueness of the ISBN; anyone lists books, optionally
    filtered by a title search, ordered by title. */
module Livros {
  import opened Common
  import opened Models
  import opened Text
  import opened Store

  /** The body of a book creation. A field left out (`None`) takes its
      column default. */
  datatype LivroCreate = LivroCreate(
    titulo: string,
    subtitulo: Option<string>,
    autorId: int,
    editoraId: Option<int>,
    isbn: string,
    edicao: Option<int>,
    anoPublicacao: Option<int>,
    numPaginas: Option<int>,
    sinopse: Option<string>,
    idioma: Option<string>,
    status: Option<StatusLivro>,
    capaUrl: Option<string>)

  /** The body of a book update: the fields that were sent. A nullable
      column may be sent as null, hence `Some(None)`. */
  datatype LivroPatch = LivroPatch(
    titulo: Option<string>,
    subtitulo: Option<Option<string>>,
    autorId: Option<int>,
    editoraId: Option<Option<int>>,
    isbn: Option<string>,
    edicao: Option<int>,
    anoPublicacao: Option<Option<int>>,
    numPaginas: Option<Option<int>>,
    sinopse: Option<Option<string>>,
    idioma: Option<string>,
    status: Option<StatusLivro>,
    capaUrl: Option<Option<string>>)

  /** The book row inserted for a creation body: the body's fields, edition
      1, language "Português" and status available where left out. */
  function NovoLivro(c: LivroCreate, now: int): (l: Livro)
    ensures l.titulo == c.titulo && l.autorId == c.autorId && l.editoraId == c.editoraId && l.isbn == c.isbn
    ensures l.edicao == (if c.edicao.Some? then c.edicao.value else 1)
    ensures l.idioma == (if c.idioma.Some? then c.idioma.value else "Português")
    ensures l.subtitulo == c.subtitulo && l.anoPublicacao == c.anoPublicacao && l.numPaginas == c.numPaginas
    ensures l.sinopse == c.sinopse && l.capaUrl == c.capaUrl
    ensures c.status == None ==> l.status == Disponivel
    ensures c.status.Some? ==> l.status == c.status.value
    ensures l.dataCadastro == now
  {
    Livro(c.titulo, c.subtitulo, c.autorId, c.editoraId, c.isbn, c.edicao.GetOr(1), c.anoPublicacao,
          c.numPaginas, c.sinopse, c.idioma.GetOr("Português"), StatusInicial(c.status), c.capaUrl, now)
  }

  /** A book after a patch: each field sent replaces the stored one, every
      other field is kept. */
  function Aplicar(l: Livro, p: LivroPatch): (r: Livro)
    ensures p.titulo.Some? ==> r.titulo == p.titulo.value
    ensures p.titulo.None? ==> r.titulo == l.titulo
    ensures p.autorId.Some? ==> r.autorId == p.autorId.value
    ensures p.autorId.None? ==> r.autorId == l.autorId
    ensures p.editoraId.Some? ==> r.editoraId == p.editoraId.value
    ensures p.editoraId.None? ==> r.editoraId == l.editoraId
    ensures p.isbn.Some? ==> r.isbn == p.isbn.value
    ensures p.isbn.None? ==> r.isbn == l.isbn
    ensures p.status.Some? ==> r.status == p.status.value
    ensures p.status.None? ==> r.status == l.status
    ensures r.dataCadastro == l.dataCadastro
  {
    Livro(p.titulo.GetOr(l.titulo), p.subtitulo.GetOr(l.subtitulo), p.autorId.GetOr(l.autorId),
          p.editoraId.GetOr(l.editoraId), p.isbn.GetOr(l.isbn), p.edicao.GetOr(l.edicao),
          p.anoPublicacao.GetOr(l.anoPublicacao), p.numPaginas.GetOr(l.numPaginas),
          p.sinopse.GetOr(l.sinopse), p.idioma.GetOr(l.idioma), p.status.GetOr(l.status),
          p.capaUrl.GetOr(l.capaUrl), l.dataCadastro)
  }

  /** Sending the same patch twice has the effect of sending it once. */
  lemma AplicarIdempotente(l: Livro, p: LivroPatch)
    ensures Aplicar(Aplicar(l, p), p) == Aplicar(l, p)
  {
  }

  /** Some book other than `except` has ISBN `isbn`. */
  predicate IsbnTaken(livros: map<int, Livro>, isbn: string, except: Option<int>) {
    exists k :: k in livros && livros[k].isbn == isbn && except != Some(k)
  }

  /** Rewriting book `id` with an ISBN no other book has keeps ISBNs
      unique. */
  lemma RewriteKeepsIsbnUnique(livros: map<int, Livro>, id: int, l: Livro)
    requires IsbnUnique(livros) && id in livros
    requires l.isbn == livros[id].isbn || !IsbnTaken(livros, l.isbn, Some(id))
    ensures IsbnUnique(livros[id := l])
  {
    var after := livros[id := l];
    forall a, b | a in after && b in after && a != b
      ensures after[a].isbn != after[b].isbn
    {
      if a == id {
        assert after[b] == livros[b];
      } else if b == id {
        assert after[a] == livros[a];
      }
    }
  }

  /** Rewriting a book with references that exist keeps the catalogue's
      references resolvable. */
  lemma RewriteKeepsRefs(livros: map<int, Livro>, autores: map<int, Autor>, editoras: map<int, Editora>, id: int, l: Livro)
    requires CatalogueRefsExist(livros, autores, editoras)
    requires l.autorId in autores && (Checked(l.editoraId) ==> l.editoraId.value in editoras)
    ensures CatalogueRefsExist(livros[id := l], autores, editoras)
  {
  }

  /** Replacing a book by one with the same status keeps the loan/book
      agreement. */
  lemma SameStatusKeepsAgreement(livros: map<int, Livro>, emprestimos: map<int, Emprestimo>, id: int, l: Livro)
    requires LoansMatchBooks(livros, emprestimos)
    requires id in livros && l.status == livros[id].status
    ensures LoansMatchBooks(livros[id := l], emprestimos)
  {
    var after := livros[id := l];
    forall b | b in after
      ensures after[b].status == Emprestado <==> HasActiveLoanOf(emprestimos, b)
    {
      assert after[b].status == livros[b].status;
    }
  }

  /** `create_livro` (admins only). */
  method CreateLivro(db: Db, caller: CurrentUser, c: LivroCreate, now: int) returns (r: Result<int>)
    requires db.Valid()
    modifies db
    ensures db.Valid()
    ensures (old(db.LoansConsistent()) && ActiveLoansResolve(old(db.livros), old(db.emprestimos))
             && c.status != Some(Emprestado)) ==> db.LoansConsistent()
    ensures old(db.RefsConsistent()) ==> db.RefsConsistent()
    ensures !caller.isAdmin ==> r == Err(Forbidden)
    ensures caller.isAdmin && c.autorId !in old(db.autores) ==> r == Err(NotFound)
    ensures (caller.isAdmin && c.autorId in old(db.autores) && Checked(c.editoraId)
             && c.editoraId.value !in old(db.editoras)) ==> r == Err(NotFound)
    ensures (caller.isAdmin && c.autorId in old(db.autores)
             && (Checked(c.editoraId) ==> c.editoraId.value in old(db.editoras))) ==>
            (r.Ok? <==> !IsbnTaken(old(db.livros), c.isbn, None))
    ensures r.Err? ==> unchanged(db)
    ensures r.Ok? ==>
      && r.value !in old(db.livros)
      && db.livros == old(db.livros)[r.value := NovoLivro(c, now)]
      && db.usuarios == old(db.usuarios) && db.contas == old(db.contas) && db.emprestimos == old(db.emprestimos)
      && db.reservas == old(db.reservas) && db.solicitacoes == old(db.solicitacoes)
      && db.autores == old(db.autores) && db.editoras == old(db.editoras)
  {
    if !caller.isAdmin {
      return Err(Forbidden);
    }
    if c.autorId !in db.autores {
      return Err(NotFound);
    }
    if Checked(c.editoraId) && c.editoraId.value !in db.editoras {
      return Err(NotFound);
    }
    var existing := First(db.livros, (l: Livro) => l.isbn == c.isbn);
    if existing.Some? {
      var k := existing.value;
      assert k in db.livros && db.livros[k].isbn == c.isbn;
      return Err(BadRequest);
    }
    var id := NewId(db.livros);
    db.livros := db.livros[id := NovoLivro(c, now)];
    r := Ok(id);
  }

  /** `read_livro`: one book by id. */
  method ReadLivro(db: Db, livroId: int) returns (r: Result<Livro>)
    ensures r.Ok? <==> livroId in db.livros
    ensures r.Ok? ==> r.value == db.livros[livroId]
    ensures r.Err? ==> r.error == NotFound
  {
    if livroId !in db.livros {
      return Err(NotFound);
    }
    r := Ok(db.livros[livroId]);
  }

  /** The query for another book, not `livroId`, with this ISBN. */
  method IsbnOfAnother(db: Db, isbn: string, livroId: int) returns (taken: bool)
    ensures taken <==> IsbnTaken(db.livros, isbn, Some(livroId))
  {
    var others := Scan(db.livros, (l: Livro) => l.isbn == isbn);
    taken := exists i :: 0 <= i < |others| && others[i] != livroId;
    if taken {
      var i :| 0 <= i < |others| && others[i] != livroId;
      var k := others[i];
      assert k in db.livros && db.livros[k].isbn == isbn && Some(livroId) != Some(k);
    } else {
      forall k | k in db.livros && db.livros[k].isbn == isbn
        ensures k == livroId
      {
        assert k in others;
      }
    }
  }

  /** `update_livro` (admins only): a referenced author must exist, a
      checked publisher must exist, and a new ISBN must not belong to
      another book; then the patch is applied. A patch that leaves the
      status alone keeps the loan/book agreement. */
  method UpdateLivro(db: Db, caller: CurrentUser, livroId: int, p: LivroPatch) returns (r: Outcome)
    requires db.Valid()
    modifies db
    ensures db.Valid()
    ensures old(db.LoansConsistent()) && p.status.None? ==> db.LoansConsistent()
    ensures old(db.RefsConsistent()) ==> db.RefsConsistent()
    ensures !caller.isAdmin ==> r == Failed(Forbidden)
    ensures caller.isAdmin && livroId !in old(db.livros) ==> r == Failed(NotFound)
    ensures (caller.isAdmin && livroId in old(db.livros) && p.autorId.Some?
             && p.autorId.value !in old(db.autores)) ==> r == Failed(NotFound)
    ensures (caller.isAdmin && livroId in old(db.livros)
             && (p.autorId.Some? ==> p.autorId.value in old(db.autores))
             && p.editoraId.Some? && Checked(p.editoraId.value)
             && p.editoraId.value.value !in old(db.editoras)) ==> r == Failed(NotFound)
    ensures (caller.isAdmin && livroId in old(db.livros)
             && (p.autorId.Some? ==> p.autorId.value in old(db.autores))
             && (p.editoraId.Some? && Checked(p.editoraId.value) ==> p.editoraId.value.value in old(db.editoras))) ==>
            (r.Done? <==> !(p.isbn.Some? && IsbnTaken(old(db.livros), p.isbn.value, Some(livroId))))
    ensures r.Failed? ==> unchanged(db)
    ensures r.Done? ==>
      && db.livros == old(db.livros)[livroId := Aplicar(old(db.livros)[livroId], p)]
      && db.usuarios == old(db.usuarios) && db.contas == old(db.contas) && db.emprestimos == old(db.emprestimos)
      && db.reservas == old(db.reservas) && db.solicitacoes == old(db.solicitacoes)
      && db.autores == old(db.autores) && db.editoras == old(db.editoras)
  {
    if !caller.isAdmin {
      return Failed(Forbidden);
    }
    if livroId !in db.livros {
      return Failed(NotFound);
    }
    if p.autorId.Some? && p.autorId.value !in db.autores {
      return Failed(NotFound);
    }
    if p.editoraId.Some? && Checked(p.editoraId.value) && p.editoraId.value.value !in db.editoras {
      return Failed(NotFound);
    }
    if p.isbn.Some? {
      var taken := IsbnOfAnother(db, p.isbn.value, livroId);
      if taken {
        return Failed(BadRequest);
      }
    }
    var l := Aplicar(db.livros[livroId], p);
    RewriteKeepsIsbnUnique(db.livros, livroId, l);
    if db.RefsConsistent() {
      RewriteKeepsRefs(db.livros, db.autores, db.editoras, livroId, l);
    }
    if db.LoansConsistent() && p.status.None? {
      SameStatusKeepsAgreement(db.livros, db.emprestimos, livroId, l);
    }
    db.livros := db.livros[livroId := l];
    r := Done;
  }

  /** `delete_livro` (admins only): removes the book. There is no check of
      its own on loans, but the ORM nulls the NOT NULL `livro_id` of every
      loan of the book, whatever its state, so the commit fails and nothing
      changes while any loan references it. Reservations of the book are
      not touched and stay behind. */
  method DeleteLivro(db: Db, caller: CurrentUser, livroId: int) returns (r: Outcome)
    requires db.Valid()
    modifies db
    ensures db.Valid()
    ensures old(db.LoansConsistent()) ==> db.LoansConsistent()
    ensures old(db.RefsConsistent()) ==> db.RefsConsistent()
    ensures old(ActiveLoansResolve(db.livros, db.emprestimos)) ==> ActiveLoansResolve(db.livros, db.emprestimos)
    ensures old(ReferencesExist(db.livros, db.usuarios, db.emprestimos, db.reservas)) ==>
            ReferencesExist(db.livros, db.usuarios, db.emprestimos, db.reservas)
    ensures !caller.isAdmin ==> r == Failed(Forbidden)
    ensures caller.isAdmin && livroId !in old(db.livros) ==> r == Failed(NotFound)
    ensures caller.isAdmin && livroId in old(db.livros) ==>
            (r.Done? <==> !LoanReferencesBook(old(db.emprestimos), livroId))
    ensures caller.isAdmin && livroId in old(db.livros) && r.Failed? ==> r.error == Integrity
    ensures r.Failed? ==> unchanged(db)
    ensures r.Done? ==>
      && db.livros == old(db.livros) - {livroId}
      && db.usuarios == old(db.usuarios) && db.contas == old(db.contas) && db.emprestimos == old(db.emprestimos)
      && db.reservas == old(db.reservas) && db.solicitacoes == old(db.solicitacoes)
      && db.autores == old(db.autores) && db.editoras == old(db.editoras)
  {
    if !caller.isAdmin {
      return Failed(Forbidden);
    }
    if livroId !in db.livros {
      return Failed(NotFound);
    }
    if LoanReferencesBook(db.emprestimos, livroId) {
      return Failed(Integrity);
    }
    db.livros := db.livros - {livroId};
    r := Done;
  }

  // ---------------------------------------------------------------------
  // Listing: filter by title, order by title

  predicate InTable(livros: map<int, Livro>, ks: seq<int>) {
    forall i :: 0 <= i < |ks| ==> ks[i] in livros
  }

  /** The ids are ordered by their books' titles, ascending. */
  predicate SortedByTitle(livros: map<int, Livro>, ks: seq<int>)
    requires InTable(livros, ks)
  {
    forall i, j :: 0 <= i < j < |ks| ==> LessEq(livros[ks[i]].titulo, livros[ks[j]].titulo)
  }

  /** Inserts `k` before the first id whose title is larger than `k`'s. */
  function InsertByTitle(livros: map<int, Livro>, k: int, ks: seq<int>): (r: seq<int>)
    requires k in livros && InTable(livros, ks)
    ensures InTable(livros, r)
    ensures multiset(r) == multiset(ks) + multiset{k}
  {
    if ks == [] then [k]
    else if LessEq(livros[k].titulo, livros[ks[0]].titulo) then [k] + ks
    else
      assert ks == [ks[0]] + ks[1..];
      [ks[0]] + InsertByTitle(livros, k, ks[1..])
  }

  lemma {:induction false} InsertByTitleSorted(livros: map<int, Livro>, k: int, ks: seq<int>)
    requires k in livros && InTable(livros, ks) && SortedByTitle(livros, ks)
    ensures SortedByTitle(livros, InsertByTitle(livros, k, ks))
  {
    var r := InsertByTitle(livros, k, ks);
    if ks == [] {
    } else if LessEq(livros[k].titulo, livros[ks[0]].titulo) {
      forall j | 1 <= j < |r|
        ensures LessEq(livros[r[0]].titulo, livros[r[j]].titulo)
      {
        if j > 1 {
          LessEqTransitive(livros[k].titulo, livros[ks[0]].titulo, livros[ks[j - 1]].titulo);
        }
      }
    } else {
      LessEqTotal(livros[k].titulo, livros[ks[0]].titulo);
      var rest := InsertByTitle(livros, k, ks[1..]);
      InsertByTitleSorted(livros, k, ks[1..]);
      assert r == [ks[0]] + rest;
      forall j | 0 <= j < |rest|
        ensures LessEq(livros[ks[0]].titulo, livros[rest[j]].titulo)
      {
        assert rest[j] in multiset(rest);
        if rest[j] != k {
          assert rest[j] in multiset(ks[1..]);
          var m :| 0 <= m < |ks[1..]| && ks[1..][m] == rest[j];
          assert ks[m + 1] == rest[j];
        }
      }
    }
  }

  /** Insertion sort by title. */
  function SortByTitle(livros: map<int, Livro>, ks: seq<int>): (r: seq<int>)
    requires InTable(livros, ks)
    ensures InTable(livros, r)
    ensures multiset(r) == multiset(ks)
  {
    if ks == [] then []
    else
      assert ks == [ks[0]] + ks[1..];
      InsertByTitle(livros, ks[0], SortByTitle(livros, ks[1..]))
  }

  lemma {:induction false} SortByTitleSorted(livros: map<int, Livro>, ks: seq<int>)
    requires InTable(livros, ks)
    ensures SortedByTitle(livros, SortByTitle(livros, ks))
  {
    if ks != [] {
      SortByTitleSorted(livros, ks[1..]);
      InsertByTitleSorted(livros, ks[0], SortByTitle(livros, ks[1..]));
    }
  }

  /** In a strictly increasing sequence every id occurs once. */
  lemma {:induction false} IncreasingOnce(ks: seq<int>)
    requires StrictlyIncreasing(ks)
    ensures forall k :: multiset(ks)[k] == if k in ks then 1 else 0
  {
    if ks != [] {
      var rest := ks[1..];
      assert ks == [ks[0]] + rest;
      IncreasingOnce(rest);
      assert ks[0] !in rest by {
        forall i | 0 <= i < |rest| ensures rest[i] != ks[0] {
          assert rest[i] == ks[i + 1];
        }
      }
    }
  }

  /** The books a search returns: all books, or, for a non-empty term,
      those whose title contains it ignoring case. */
  predicate Matches(l: Livro, search: Option<string>) {
    search.Some? && search.value != "" ==> ILike(l.titulo, search.value)
  }

  /** `read_livros`: each matching book exactly once, ordered by title. */
  method ReadLivros(db: Db, search: Option<string>) returns (ks: seq<int>)
    ensures InTable(db.livros, ks) && SortedByTitle(db.livros, ks)
    ensures forall k :: multiset(ks)[k] == if k in db.livros && Matches(db.livros[k], search) then 1 else 0
  {
    var found := Scan(db.livros, (l: Livro) => Matches(l, search));
    IncreasingOnce(found);
    ks := SortByTitle(db.livros, found);
    SortByTitleSorted(db.livros, found);
  }
}
