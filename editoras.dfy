/** Publishers (app/api/endpoints/editoras.py): admins create, update and
    delete them; names are kept unique by the handlers, and a publisher
    that still has books cannot be deleted. */
module Editoras {
  import opened Common
  import opened Models
  import opened Store

  /** The body of a publisher update: the fields that were sent, each
      possibly sent as null. */
  datatype EditoraPatch = EditoraPatch(
    nome: Option<Option<string>>,
    endereco: Option<Option<string>>,
    telefone: Option<Option<string>>,
    email: Option<Option<string>>,
    website: Option<Option<string>>)

  /** An optional text field within its maximum length. */
  predicate AtMost(s: Option<string>, n: nat) {
    s.Some? ==> |s.value| <= n
  }

  /** The creation body's bounds: a name of 1 to 100 characters; address
      and website at most 255, phone 20, email 100. */
  predicate ValidEditora(e: Editora) {
    && 1 <= |e.nome| <= 100
    && AtMost(e.endereco, 255) && AtMost(e.telefone, 20) && AtMost(e.email, 100) && AtMost(e.website, 255)
  }

  /** The update body's bounds, on the fields sent with a value. */
  predicate ValidPatch(p: EditoraPatch) {
    && (p.nome.Some? && p.nome.value.Some? ==> 1 <= |p.nome.value.value| <= 100)
    && (p.endereco.Some? ==> AtMost(p.endereco.value, 255))
    && (p.telefone.Some? ==> AtMost(p.telefone.value, 20))
    && (p.email.Some? ==> AtMost(p.email.value, 100))
    && (p.website.Some? ==> AtMost(p.website.value, 255))
  }

  /** Some publisher is named exactly `nome`. */
  predicate NameTaken(editoras: map<int, Editora>, nome: string) {
    exists k :: k in editoras && editoras[k].nome == nome
  }

  /** Some book references publisher `id`. */
  predicate HasBooks(livros: map<int, Livro>, id: int) {
    exists b :: b in livros && livros[b].editoraId == Some(id)
  }

  /** A publisher after a patch whose name, if sent, is not null. */
  function Aplicar(e: Editora, p: EditoraPatch): (r: Editora)
    requires p.nome != Some(None)
    ensures r.nome == if p.nome.Some? then p.nome.value.value else e.nome
    ensures r.endereco == p.endereco.GetOr(e.endereco) && r.telefone == p.telefone.GetOr(e.telefone)
    ensures r.email == p.email.GetOr(e.email) && r.website == p.website.GetOr(e.website)
  {
    Editora(if p.nome.Some? then p.nome.value.value else e.nome, p.endereco.GetOr(e.endereco),
            p.telefone.GetOr(e.telefone), p.email.GetOr(e.email), p.website.GetOr(e.website))
  }

  /** Renaming publisher `id` to a name no other publisher has keeps names
      unique. */
  lemma {:induction false} RenameKeepsUnique(editoras: map<int, Editora>, id: int, e: Editora)
    requires PublisherNamesUnique(editoras) && id in editoras
    requires e.nome == editoras[id].nome || !NameTaken(editoras, e.nome)
    ensures PublisherNamesUnique(editoras[id := e])
  {
    var after := editoras[id := e];
    forall a, b | a in after && b in after && a != b
      ensures after[a].nome != after[b].nome
    {
      if a == id {
        assert after[b] == editoras[b];
      } else if b == id {
        assert after[a] == editoras[a];
      }
    }
  }

  /** `listar_editoras`: every publisher. */
  method ListarEditoras(db: Db) returns (ks: seq<int>)
    ensures StrictlyIncreasing(ks)
    ensures forall k :: k in ks <==> k in db.editoras
  {
    ks := Scan(db.editoras, (e: Editora) => true);
  }

  /** `criar_editora` (admins only): refused when a publisher has the same
      name exactly. */
  method CriarEditora(db: Db, caller: CurrentUser, e: Editora) returns (r: Result<int>)
    requires db.Valid()
    modifies db
    ensures db.Valid()
    ensures old(db.RefsConsistent()) ==> db.RefsConsistent()
    ensures !caller.isAdmin ==> r == Err(Forbidden)
    ensures caller.isAdmin && !ValidEditora(e) ==> r == Err(Invalid)
    ensures caller.isAdmin && ValidEditora(e) ==> (r.Ok? <==> !NameTaken(old(db.editoras), e.nome))
    ensures caller.isAdmin && ValidEditora(e) && r.Err? ==> r.error == BadRequest
    ensures r.Err? ==> unchanged(db)
    ensures r.Ok? ==>
      && r.value !in old(db.editoras)
      && db.editoras == old(db.editoras)[r.value := e]
      && db.livros == old(db.livros) && db.usuarios == old(db.usuarios) && db.contas == old(db.contas)
      && db.emprestimos == old(db.emprestimos) && db.reservas == old(db.reservas)
      && db.solicitacoes == old(db.solicitacoes) && db.autores == old(db.autores)
  {
    if !caller.isAdmin {
      return Err(Forbidden);
    }
    if !ValidEditora(e) {
      return Err(Invalid);
    }
    var existing := First(db.editoras, (x: Editora) => x.nome == e.nome);
    if existing.Some? {
      var k := existing.value;
      assert k in db.editoras && db.editoras[k].nome == e.nome;
      return Err(BadRequest);
    }
    var id := NewId(db.editoras);
    db.editoras := db.editoras[id := e];
    r := Ok(id);
  }

  // ---------------------------------------------------------------------
  // The code as written: the schema's fields against the table's columns

  /** The keywords `DBEditora(**editora.dict())` passes: every field of the
      creation body, including those left as None. */
  const EditoraKeywords: seq<string> := ["nome", "endereco", "telefone", "email", "website"]

  /** `criar_editora` as written: after the same checks, building the row
      raises TypeError, because the table has none of the columns
      `endereco`, `telefone`, `email` and `website`. No body creates a
      publisher. */
  function CriarEditoraAsWritten(editoras: map<int, Editora>, caller: CurrentUser, e: Editora): (r: Outcome)
    ensures r.Failed?
    ensures !caller.isAdmin ==> r == Failed(Forbidden)
    ensures caller.isAdmin && !ValidEditora(e) ==> r == Failed(Invalid)
    ensures caller.isAdmin && ValidEditora(e) ==>
            r == Failed(if NameTaken(editoras, e.nome) then BadRequest else Unhandled)
  {
    if !caller.isAdmin then Failed(Forbidden)
    else if !ValidEditora(e) then Failed(Invalid)
    else if NameTaken(editoras, e.nome) then Failed(BadRequest)
    else
      assert "endereco" in EditoraKeywords && "endereco" !in EditoraColumns;
      ConstructRow(EditoraColumns, EditoraKeywords)
  }

  /** The keys `editora.dict(exclude_unset=True)` yields for an update
      body: the fields that were sent, in declaration order. */
  function PatchKeys(p: EditoraPatch): (ks: seq<string>)
    ensures "nome" in ks <==> p.nome.Some?
    ensures "endereco" in ks <==> p.endereco.Some?
    ensures "telefone" in ks <==> p.telefone.Some?
    ensures "email" in ks <==> p.email.Some?
    ensures "website" in ks <==> p.website.Some?
    ensures forall k :: k in ks ==> k in EditoraKeywords
  {
    (if p.nome.Some? then ["nome"] else []) + (if p.endereco.Some? then ["endereco"] else [])
    + (if p.telefone.Some? then ["telefone"] else []) + (if p.email.Some? then ["email"] else [])
    + (if p.website.Some? then ["website"] else [])
  }

  /** `atualizar_editora` as written: of the keys its `setattr` loop sets,
      only `nome` names a column of `editoras`. Address, phone, email and
      website become plain attributes of the object and are never
      written, so an update persists the name alone. */
  lemma UpdateWritesOnlyNameAsWritten(p: EditoraPatch)
    ensures forall k :: k in ColumnsWritten(EditoraColumns, PatchKeys(p)) <==> k == "nome" && p.nome.Some?
  {
    var ks := PatchKeys(p);
    forall k | k in ks && k in EditoraColumns
      ensures k == "nome"
    {
      assert k in EditoraKeywords;
    }
  }

  /** `obter_editora`: one publisher by id. */
  method ObterEditora(db: Db, editoraId: int) returns (r: Result<Editora>)
    ensures r.Ok? <==> editoraId in db.editoras
    ensures r.Ok? ==> r.value == db.editoras[editoraId]
    ensures r.Err? ==> r.error == NotFound
  {
    if editoraId !in db.editoras {
      return Err(NotFound);
    }
    r := Ok(db.editoras[editoraId]);
  }

  /** `atualizar_editora` (admins only): a new name that differs from the
      current one must not belong to another publisher; the fields sent
      then replace the stored ones. A name sent as null violates the
      column's NOT NULL constraint at commit. */
  method AtualizarEditora(db: Db, caller: CurrentUser, editoraId: int, p: EditoraPatch) returns (r: Result<Editora>)
    requires db.Valid()
    modifies db
    ensures db.Valid()
    ensures old(db.RefsConsistent()) ==> db.RefsConsistent()
    ensures !caller.isAdmin ==> r == Err(Forbidden)
    ensures caller.isAdmin && !ValidPatch(p) ==> r == Err(Invalid)
    ensures caller.isAdmin && ValidPatch(p) && editoraId !in old(db.editoras) ==> r == Err(NotFound)
    ensures (caller.isAdmin && ValidPatch(p) && editoraId in old(db.editoras)
             && p.nome.Some? && p.nome.value.Some? && p.nome.value.value != old(db.editoras)[editoraId].nome
             && NameTaken(old(db.editoras), p.nome.value.value)) ==> r == Err(BadRequest)
    ensures (caller.isAdmin && ValidPatch(p) && editoraId in old(db.editoras)
             && (p.nome.Some? && p.nome.value.Some? && p.nome.value.value != old(db.editoras)[editoraId].nome
                 ==> !NameTaken(old(db.editoras), p.nome.value.value))) ==>
            (r.Ok? <==> p.nome != Some(None))
    ensures r.Err? ==> unchanged(db)
    ensures r.Ok? ==>
      && p.nome != Some(None)
      && r.value == Aplicar(old(db.editoras)[editoraId], p)
      && db.editoras == old(db.editoras)[editoraId := r.value]
      && db.livros == old(db.livros) && db.usuarios == old(db.usuarios) && db.contas == old(db.contas)
      && db.emprestimos == old(db.emprestimos) && db.reservas == old(db.reservas)
      && db.solicitacoes == old(db.solicitacoes) && db.autores == old(db.autores)
  {
    if !caller.isAdmin {
      return Err(Forbidden);
    }
    if !ValidPatch(p) {
      return Err(Invalid);
    }
    if editoraId !in db.editoras {
      return Err(NotFound);
    }
    var atual := db.editoras[editoraId];
    if p.nome.Some? && p.nome.value.Some? && p.nome.value.value != "" && p.nome.value.value != atual.nome {
      var nome := p.nome.value.value;
      var existing := First(db.editoras, (x: Editora) => x.nome == nome);
      if existing.Some? {
        var k := existing.value;
        assert k in db.editoras && db.editoras[k].nome == nome;
        return Err(BadRequest);
      }
    }
    if p.nome == Some(None) {
      return Err(Integrity);
    }
    var novo := Aplicar(atual, p);
    RenameKeepsUnique(db.editoras, editoraId, novo);
    db.editoras := db.editoras[editoraId := novo];
    r := Ok(novo);
  }

  /** `deletar_editora` (admins only): refused while some book references
      the publisher. */
  method DeletarEditora(db: Db, caller: CurrentUser, editoraId: int) returns (r: Outcome)
    requires db.Valid()
    modifies db
    ensures db.Valid()
    ensures old(db.RefsConsistent()) ==> db.RefsConsistent()
    ensures !caller.isAdmin ==> r == Failed(Forbidden)
    ensures caller.isAdmin && editoraId !in old(db.editoras) ==> r == Failed(NotFound)
    ensures caller.isAdmin && editoraId in old(db.editoras) ==> (r.Done? <==> !HasBooks(old(db.livros), editoraId))
    ensures caller.isAdmin && editoraId in old(db.editoras) && r.Failed? ==> r.error == BadRequest
    ensures r.Failed? ==> unchanged(db)
    ensures r.Done? ==>
      && db.editoras == old(db.editoras) - {editoraId}
      && db.livros == old(db.livros) && db.usuarios == old(db.usuarios) && db.contas == old(db.contas)
      && db.emprestimos == old(db.emprestimos) && db.reservas == old(db.reservas)
      && db.solicitacoes == old(db.solicitacoes) && db.autores == old(db.autores)
  {
    if !caller.isAdmin {
      return Failed(Forbidden);
    }
    if editoraId !in db.editoras {
      return Failed(NotFound);
    }
    var livros := Scan(db.livros, (l: Livro) => l.editoraId == Some(editoraId));
    if livros != [] {
      var b := livros[0];
      assert b in db.livros && db.livros[b].editoraId == Some(editoraId);
      return Failed(BadRequest);
    }
    db.editoras := db.editoras - {editoraId};
    r := Done;
  }
}
