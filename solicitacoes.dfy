/** Author requests (app/api/endpoints/solicitacoes_autores.py): a user
    proposes an author; an admin approves the proposal, which creates the
    author, or rejects it. Only a pending proposal can be moderated, so
    approval and rejection are final. */
module Solicitacoes {
  import opened Common
  import opened Models
  import opened Text
  import opened Store

  /** The body of an author request. */
  datatype SolicitacaoCreate = SolicitacaoCreate(
    nome: string,
    nacionalidade: Option<string>,
    dataNascimento: Option<int>,
    biografia: Option<string>)

  /** The request body's field bounds: a name of 1 to 100 characters and
      a nationality of at most 50. */
  predicate ValidSolicitacao(req: SolicitacaoCreate) {
    1 <= |req.nome| <= 100 && (req.nacionalidade.Some? ==> |req.nacionalidade.value| <= 50)
  }

  /** Some author's name contains `nome`, ignoring case. */
  predicate SimilarAuthor(autores: map<int, Autor>, nome: string) {
    exists k :: k in autores && ILike(autores[k].nome, nome)
  }

  /** Some pending request's name contains `nome`, ignoring case. */
  predicate SimilarPending(solicitacoes: map<int, SolicitacaoAutor>, nome: string) {
    exists k :: k in solicitacoes && ILike(solicitacoes[k].nome, nome) && solicitacoes[k].status == Aguardando
  }

  /** Every moderated request records who moderated it and when. */
  ghost predicate ModerationRecorded(solicitacoes: map<int, SolicitacaoAutor>) {
    forall k :: k in solicitacoes && solicitacoes[k].status != Aguardando ==>
      solicitacoes[k].aprovadoPorId.Some? && solicitacoes[k].dataAprovacao.Some?
  }

  /** A request row as inserted: the body's fields, the caller as
      requester, pending, not yet moderated. */
  function NovaSolicitacao(req: SolicitacaoCreate, solicitanteId: int, now: int): (s: SolicitacaoAutor)
    ensures s.nome == req.nome && s.nacionalidade == req.nacionalidade
    ensures s.dataNascimento == req.dataNascimento && s.biografia == req.biografia
    ensures s.solicitanteId == solicitanteId && s.status == Aguardando && s.dataSolicitacao == now
    ensures s.aprovadoPorId == None && s.dataAprovacao == None && s.observacoes == None
  {
    SolicitacaoAutor(req.nome, req.nacionalidade, req.dataNascimento, req.biografia, solicitanteId,
                     Aguardando, now, None, None, None)
  }

  /** The author an approved request creates: the request's four author
      fields. */
  function AutorDe(s: SolicitacaoAutor): (a: Autor)
    ensures a.nome == s.nome && a.nacionalidade == s.nacionalidade
    ensures a.dataNascimento == s.dataNascimento && a.biografia == s.biografia
  {
    Autor(s.nome, s.nacionalidade, s.dataNascimento, s.biografia)
  }

  /** `criar_solicitacao_autor`: a body outside its bounds is refused by
      validation; then the request is refused when an author or a pending
      request has a similar name; otherwise it is stored on the caller's
      behalf. */
  method CriarSolicitacaoAutor(db: Db, caller: CurrentUser, req: SolicitacaoCreate, now: int) returns (r: Result<int>)
    requires db.Valid()
    modifies db
    ensures db.Valid()
    ensures ModerationRecorded(old(db.solicitacoes)) ==> ModerationRecorded(db.solicitacoes)
    ensures !ValidSolicitacao(req) ==> r == Err(Invalid)
    ensures ValidSolicitacao(req) ==>
      (r.Err? <==> SimilarAuthor(old(db.autores), req.nome) || SimilarPending(old(db.solicitacoes), req.nome))
    ensures ValidSolicitacao(req) && r.Err? ==> r.error == BadRequest
    ensures r.Err? ==> unchanged(db)
    ensures r.Ok? ==>
      && r.value !in old(db.solicitacoes)
      && db.solicitacoes == old(db.solicitacoes)[r.value := NovaSolicitacao(req, caller.id, now)]
      && db.livros == old(db.livros) && db.usuarios == old(db.usuarios) && db.contas == old(db.contas)
      && db.emprestimos == old(db.emprestimos) && db.reservas == old(db.reservas)
      && db.autores == old(db.autores) && db.editoras == old(db.editoras)
  {
    if !ValidSolicitacao(req) {
      return Err(Invalid);
    }
    var autor := First(db.autores, (a: Autor) => ILike(a.nome, req.nome));
    if autor.Some? {
      var k := autor.value;
      assert k in db.autores && ILike(db.autores[k].nome, req.nome);
      return Err(BadRequest);
    }
    var pendente := First(db.solicitacoes, (s: SolicitacaoAutor) => ILike(s.nome, req.nome) && s.status == Aguardando);
    if pendente.Some? {
      var k := pendente.value;
      assert k in db.solicitacoes && ILike(db.solicitacoes[k].nome, req.nome) && db.solicitacoes[k].status == Aguardando;
      return Err(BadRequest);
    }
    var id := NewId(db.solicitacoes);
    db.solicitacoes := db.solicitacoes[id := NovaSolicitacao(req, caller.id, now)];
    r := Ok(id);
  }

  /** `listar_solicitacoes_autores` (admins only): every request, or those
      of one status. */
  method ListarSolicitacoesAutores(db: Db, caller: CurrentUser, statusFiltro: Option<StatusSolicitacao>)
    returns (r: Result<seq<int>>)
    ensures !caller.isAdmin <==> r == Err(Forbidden)
    ensures r.Ok? ==> StrictlyIncreasing(r.value)
    ensures r.Ok? ==> forall k :: k in r.value <==>
      k in db.solicitacoes && (statusFiltro.Some? ==> db.solicitacoes[k].status == statusFiltro.value)
  {
    if !caller.isAdmin {
      return Err(Forbidden);
    }
    var ks := Scan(db.solicitacoes, (s: SolicitacaoAutor) => statusFiltro.Some? ==> s.status == statusFiltro.value);
    r := Ok(ks);
  }

  /** `obter_solicitacao_autor` (admins only): one request by id. */
  method ObterSolicitacaoAutor(db: Db, caller: CurrentUser, solicitacaoId: int) returns (r: Result<SolicitacaoAutor>)
    ensures !caller.isAdmin ==> r == Err(Forbidden)
    ensures caller.isAdmin ==> (r.Ok? <==> solicitacaoId in db.solicitacoes)
    ensures caller.isAdmin && r.Err? ==> r.error == NotFound
    ensures r.Ok? ==> r.value == db.solicitacoes[solicitacaoId]
  {
    if !caller.isAdmin {
      return Err(Forbidden);
    }
    if solicitacaoId !in db.solicitacoes {
      return Err(NotFound);
    }
    r := Ok(db.solicitacoes[solicitacaoId]);
  }

  /** `aprovar_solicitacao_autor` (admins only): a pending request becomes
      approved by the caller at `now`, and one author copying its fields is
      added; the new author's id is returned. */
  method AprovarSolicitacaoAutor(db: Db, caller: CurrentUser, solicitacaoId: int, now: int) returns (r: Result<int>)
    requires db.Valid()
    modifies db
    ensures db.Valid()
    ensures ModerationRecorded(old(db.solicitacoes)) ==> ModerationRecorded(db.solicitacoes)
    ensures !caller.isAdmin ==> r == Err(Forbidden)
    ensures caller.isAdmin && solicitacaoId !in old(db.solicitacoes) ==> r == Err(NotFound)
    ensures caller.isAdmin && solicitacaoId in old(db.solicitacoes) ==>
      (r.Ok? <==> old(db.solicitacoes)[solicitacaoId].status == Aguardando)
    ensures (caller.isAdmin && solicitacaoId in old(db.solicitacoes)
             && old(db.solicitacoes)[solicitacaoId].status != Aguardando) ==> r == Err(BadRequest)
    ensures r.Err? ==> unchanged(db)
    ensures r.Ok? ==>
      var s := old(db.solicitacoes)[solicitacaoId];
      && r.value !in old(db.autores)
      && db.autores == old(db.autores)[r.value := AutorDe(s)]
      && db.solicitacoes == old(db.solicitacoes)[solicitacaoId :=
           s.(status := Aprovada, dataAprovacao := Some(now), aprovadoPorId := Some(caller.id))]
      && db.livros == old(db.livros) && db.usuarios == old(db.usuarios) && db.contas == old(db.contas)
      && db.emprestimos == old(db.emprestimos) && db.reservas == old(db.reservas) && db.editoras == old(db.editoras)
  {
    if !caller.isAdmin {
      return Err(Forbidden);
    }
    if solicitacaoId !in db.solicitacoes {
      return Err(NotFound);
    }
    var s := db.solicitacoes[solicitacaoId];
    if s.status != Aguardando {
      return Err(BadRequest);
    }
    var id := NewId(db.autores);
    db.autores := db.autores[id := AutorDe(s)];
    db.solicitacoes := db.solicitacoes[solicitacaoId :=
      s.(status := Aprovada, dataAprovacao := Some(now), aprovadoPorId := Some(caller.id))];
    r := Ok(id);
  }

  /** `rejeitar_solicitacao_autor` (admins only): a pending request becomes
      rejected by the caller at `now`, with the given notes; no author is
      created. */
  method RejeitarSolicitacaoAutor(db: Db, caller: CurrentUser, solicitacaoId: int, observacoes: string, now: int)
    returns (r: Outcome)
    requires db.Valid()
    modifies db
    ensures db.Valid()
    ensures ModerationRecorded(old(db.solicitacoes)) ==> ModerationRecorded(db.solicitacoes)
    ensures !caller.isAdmin ==> r == Failed(Forbidden)
    ensures caller.isAdmin && solicitacaoId !in old(db.solicitacoes) ==> r == Failed(NotFound)
    ensures caller.isAdmin && solicitacaoId in old(db.solicitacoes) ==>
      (r.Done? <==> old(db.solicitacoes)[solicitacaoId].status == Aguardando)
    ensures (caller.isAdmin && solicitacaoId in old(db.solicitacoes)
             && old(db.solicitacoes)[solicitacaoId].status != Aguardando) ==> r == Failed(BadRequest)
    ensures r.Failed? ==> unchanged(db)
    ensures r.Done? ==>
      && db.solicitacoes == old(db.solicitacoes)[solicitacaoId := old(db.solicitacoes)[solicitacaoId].(
           status := Rejeitada, dataAprovacao := Some(now), aprovadoPorId := Some(caller.id),
           observacoes := Some(observacoes))]
      && db.autores == old(db.autores)
      && db.livros == old(db.livros) && db.usuarios == old(db.usuarios) && db.contas == old(db.contas)
      && db.emprestimos == old(db.emprestimos) && db.reservas == old(db.reservas) && db.editoras == old(db.editoras)
  {
    if !caller.isAdmin {
      return Failed(Forbidden);
    }
    if solicitacaoId !in db.solicitacoes {
      return Failed(NotFound);
    }
    var s := db.solicitacoes[solicitacaoId];
    if s.status != Aguardando {
      return Failed(BadRequest);
    }
    db.solicitacoes := db.solicitacoes[solicitacaoId := s.(
      status := Rejeitada, dataAprovacao := Some(now), aprovadoPorId := Some(caller.id),
      observacoes := Some(observacoes))];
    r := Done;
  }

  /** `listar_minhas_solicitacoes`: exactly the caller's requests. */
  method ListarMinhasSolicitacoes(db: Db, caller: CurrentUser) returns (ks: seq<int>)
    ensures StrictlyIncreasing(ks)
    ensures forall k :: k in ks <==> k in db.solicitacoes && db.solicitacoes[k].solicitanteId == caller.id
  {
    ks := Scan(db.solicitacoes, (s: SolicitacaoAutor) => s.solicitanteId == caller.id);
  }

  /** Approval is final: once a request is approved, approving or
      rejecting it again is refused and changes nothing. */
  method AprovarEDepois(db: Db, caller: CurrentUser, solicitacaoId: int, observacoes: string, now: int)
    returns (aprovada: Result<int>, outraVez: Result<int>, rejeitada: Outcome)
    requires db.Valid()
    modifies db
    ensures aprovada.Ok? ==> outraVez == Err(BadRequest) && rejeitada == Failed(BadRequest)
  {
    aprovada := AprovarSolicitacaoAutor(db, caller, solicitacaoId, now);
    outraVez := AprovarSolicitacaoAutor(db, caller, solicitacaoId, now);
    rejeitada := RejeitarSolicitacaoAutor(db, caller, solicitacaoId, observacoes, now);
  }

  /** Rejection is final: once a request is rejected, approving or
      rejecting it again is refused, and no author is created. */
  method RejeitarEDepois(db: Db, caller: CurrentUser, solicitacaoId: int, observacoes: string, now: int)
    returns (rejeitada: Outcome, aprovada: Result<int>, outraVez: Outcome)
    requires db.Valid()
    modifies db
    ensures rejeitada.Done? ==> aprovada == Err(BadRequest) && outraVez == Failed(BadRequest)
    ensures rejeitada.Done? ==> db.autores == old(db.autores)
  {
    rejeitada := RejeitarSolicitacaoAutor(db, caller, solicitacaoId, observacoes, now);
    aprovada := AprovarSolicitacaoAutor(db, caller, solicitacaoId, now);
    outraVez := RejeitarSolicitacaoAutor(db, caller, solicitacaoId, observacoes, now);
  }
}
