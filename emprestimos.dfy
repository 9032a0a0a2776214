/** The loan workflow (app/api/endpoints/emprestimos.py): lending a book,
    returning it, and the two admin listings. A book must be available to
    be lent and lending marks it lent; returning closes the loan and marks
    the book available again. */
module Emprestimos {
  import opened Common
  import opened Models
  import opened Store

  /** The body of a loan request. */
  datatype EmprestimoCreate = EmprestimoCreate(usuarioId: int, livroId: int, observacoes: Option<string>)

  /** The request body's bound: notes of at most 500 characters. */
  predicate ValidEmprestimo(req: EmprestimoCreate) {
    req.observacoes.Some? ==> |req.observacoes.value| <= 500
  }

  /** The profile created for a caller without admin rights who has none:
      a student, active, carrying the account's name, email and
      registration number. */
  function PerfilAutomatico(caller: CurrentUser, now: int): (u: Usuario)
    ensures u.nome == caller.nome && u.email == caller.email && u.matricula == caller.matricula
    ensures u.tipo == Aluno && u.ativo && u.dataCadastro == now
  {
    Usuario(caller.nome, caller.email, None, caller.matricula, TipoInicial(None), None, None, None, None, now, true)
  }

  /** The profile whose registration number is the caller's and that comes
      first in the table. */
  ghost predicate IsFirstProfileOf(usuarios: map<int, Usuario>, matricula: Option<string>, id: int) {
    && id in usuarios && usuarios[id].matricula == matricula
    && forall k :: k in usuarios && usuarios[k].matricula == matricula ==> id <= k
  }

  ghost predicate HasProfileOf(usuarios: map<int, Usuario>, matricula: Option<string>) {
    exists k :: k in usuarios && usuarios[k].matricula == matricula
  }

  /** The borrower a loan request resolves to: for an admin, the requested
      profile, which must exist; for anyone else, the profile carrying the
      caller's registration number, created (and committed) first if there
      is none. */
  ghost predicate Resolved(before: map<int, Usuario>, after: map<int, Usuario>, caller: CurrentUser,
                           requested: int, now: int, id: int)
  {
    if caller.isAdmin then
      after == before && id == requested && id in before
    else if HasProfileOf(before, caller.matricula) then
      after == before && IsFirstProfileOf(before, caller.matricula, id)
    else
      && id !in before && CanInsertProfile(before, PerfilAutomatico(caller, now))
      && after == before[id := PerfilAutomatico(caller, now)]
  }

  /** No borrower can be resolved: an admin named an unknown profile, or
      the profile to create clashes with a unique index. */
  ghost predicate ResolutionFails(before: map<int, Usuario>, caller: CurrentUser, requested: int, now: int) {
    if caller.isAdmin then requested !in before
    else !HasProfileOf(before, caller.matricula) && !CanInsertProfile(before, PerfilAutomatico(caller, now))
  }

  /** When borrower resolution fails as the code is written, with the
      NOT NULL constraints of `usuarios` checked at commit: the automatic
      profile carries no CPF, so its insertion is always refused. */
  ghost predicate ResolutionFailsAsWritten(before: map<int, Usuario>, caller: CurrentUser, requested: int, now: int) {
    if caller.isAdmin then requested !in before
    else
      var novo := PerfilAutomatico(caller, now);
      !HasProfileOf(before, caller.matricula) && !(NotNullHolds(novo) && CanInsertProfile(before, novo))
  }

  /** As written, a caller without admin rights and without a profile
      never gets a loan, even where the model lets the automatic profile
      in: the two resolutions differ exactly on that case. */
  lemma {:induction false} AutoProfileRefusedAsWritten(before: map<int, Usuario>, caller: CurrentUser, requested: int, now: int)
    ensures !caller.isAdmin && !HasProfileOf(before, caller.matricula) ==>
      ResolutionFailsAsWritten(before, caller, requested, now)
    ensures ResolutionFailsAsWritten(before, caller, requested, now) != ResolutionFails(before, caller, requested, now) <==>
      !caller.isAdmin && !HasProfileOf(before, caller.matricula) && CanInsertProfile(before, PerfilAutomatico(caller, now))
  {
    assert PerfilAutomatico(caller, now).cpf == None;
  }

  /** Some active loan of book `livroId` is held by `usuarioId`. */
  predicate HasActiveLoan(emprestimos: map<int, Emprestimo>, usuarioId: int, livroId: int) {
    exists e :: e in emprestimos && emprestimos[e].usuarioId == usuarioId && emprestimos[e].livroId == livroId
                && emprestimos[e].status == Ativo
  }

  /** Resolves the borrower of a loan request (emprestimos.py:114-142). */
  method ResolverUsuario(db: Db, caller: CurrentUser, requested: int, now: int) returns (r: Result<int>)
    requires db.Valid()
    modifies db
    ensures db.Valid()
    ensures db.livros == old(db.livros) && db.emprestimos == old(db.emprestimos) && db.contas == old(db.contas)
    ensures db.reservas == old(db.reservas) && db.solicitacoes == old(db.solicitacoes)
    ensures db.autores == old(db.autores) && db.editoras == old(db.editoras)
    ensures r.Ok? ==> Resolved(old(db.usuarios), db.usuarios, caller, requested, now, r.value)
    ensures r.Err? <==> ResolutionFails(old(db.usuarios), caller, requested, now)
    ensures r.Err? ==> db.usuarios == old(db.usuarios) && r.error == if caller.isAdmin then NotFound else Integrity
  {
    if !caller.isAdmin {
      var found := First(db.usuarios, (u: Usuario) => u.matricula == caller.matricula);
      if found.Some? {
        return Ok(found.value);
      }
      var novo := PerfilAutomatico(caller, now);
      if !CanInsertProfile(db.usuarios, novo) {
        return Err(Integrity);
      }
      var id := NewId(db.usuarios);
      db.usuarios := db.usuarios[id := novo];
      return Ok(id);
    } else {
      if requested !in db.usuarios {
        return Err(NotFound);
      }
      return Ok(requested);
    }
  }

  /** Lends book `livroId` to profile `usuarioId` (emprestimos.py:144-183):
      the book must exist and be available, and the profile must not hold
      an active loan of it already. */
  method Emprestar(db: Db, usuarioId: int, livroId: int, observacoes: Option<string>, now: int) returns (r: Result<int>)
    requires db.Valid()
    modifies db
    ensures db.Valid()
    ensures old(db.LoansConsistent()) ==> db.LoansConsistent()
    ensures db.usuarios == old(db.usuarios) && db.contas == old(db.contas) && db.reservas == old(db.reservas)
    ensures db.solicitacoes == old(db.solicitacoes) && db.autores == old(db.autores) && db.editoras == old(db.editoras)
    ensures livroId !in old(db.livros) ==> r == Err(NotFound)
    ensures livroId in old(db.livros) && old(db.livros)[livroId].status != Disponivel ==> r == Err(BadRequest)
    ensures (livroId in old(db.livros) && old(db.livros)[livroId].status == Disponivel
             && HasActiveLoan(old(db.emprestimos), usuarioId, livroId)) ==> r == Err(BadRequest)
    ensures r.Ok? <==> (livroId in old(db.livros) && old(db.livros)[livroId].status == Disponivel
                        && !HasActiveLoan(old(db.emprestimos), usuarioId, livroId))
    ensures r.Err? ==> db.livros == old(db.livros) && db.emprestimos == old(db.emprestimos)
    ensures r.Ok? ==>
      && r.value !in old(db.emprestimos)
      && db.emprestimos == old(db.emprestimos)[r.value := NovoEmprestimo(usuarioId, livroId, observacoes, now)]
      && db.livros == old(db.livros)[livroId := old(db.livros)[livroId].(status := Emprestado)]
  {
    if livroId !in db.livros {
      return Err(NotFound);
    }
    var livro := db.livros[livroId];
    if livro.status != Disponivel {
      return Err(BadRequest);
    }
    if HasActiveLoan(db.emprestimos, usuarioId, livroId) {
      return Err(BadRequest);
    }
    var id := NewId(db.emprestimos);
    var e := NovoEmprestimo(usuarioId, livroId, observacoes, now);
    if db.LoansConsistent() {
      LendKeepsAgreement(db.livros, db.emprestimos, id, e);
    }
    db.emprestimos := db.emprestimos[id := e];
    db.livros := db.livros[livroId := livro.(status := Emprestado)];
    r := Ok(id);
  }

  /** `criar_emprestimo`: validates the body, resolves the borrower, then
      lends the book. A profile created while resolving stays committed
      even when the loan is then refused. `uid` is the resolved borrower. */
  method CriarEmprestimo(db: Db, caller: CurrentUser, req: EmprestimoCreate, now: int) returns (r: Result<int>, ghost uid: int)
    requires db.Valid()
    modifies db
    ensures db.Valid()
    ensures old(db.LoansConsistent()) ==> db.LoansConsistent()
    ensures db.contas == old(db.contas) && db.reservas == old(db.reservas)
    ensures db.solicitacoes == old(db.solicitacoes) && db.autores == old(db.autores) && db.editoras == old(db.editoras)
    ensures !ValidEmprestimo(req) ==> r == Err(Invalid) && unchanged(db)
    ensures ValidEmprestimo(req) && ResolutionFails(old(db.usuarios), caller, req.usuarioId, now) ==>
      && r == Err(if caller.isAdmin then NotFound else Integrity)
      && db.usuarios == old(db.usuarios) && db.livros == old(db.livros) && db.emprestimos == old(db.emprestimos)
    ensures ValidEmprestimo(req) && !ResolutionFails(old(db.usuarios), caller, req.usuarioId, now) ==>
      && Resolved(old(db.usuarios), db.usuarios, caller, req.usuarioId, now, uid)
      && (req.livroId !in old(db.livros) ==> r == Err(NotFound))
      && (req.livroId in old(db.livros) && old(db.livros)[req.livroId].status != Disponivel ==> r == Err(BadRequest))
      && ((req.livroId in old(db.livros) && old(db.livros)[req.livroId].status == Disponivel
           && HasActiveLoan(old(db.emprestimos), uid, req.livroId)) ==> r == Err(BadRequest))
      && ((req.livroId in old(db.livros) && old(db.livros)[req.livroId].status == Disponivel
           && !HasActiveLoan(old(db.emprestimos), uid, req.livroId)) ==> r.Ok?)
    ensures r.Err? ==> db.livros == old(db.livros) && db.emprestimos == old(db.emprestimos)
    ensures r.Ok? ==>
      && r.value !in old(db.emprestimos)
      && db.emprestimos == old(db.emprestimos)[r.value := NovoEmprestimo(uid, req.livroId, req.observacoes, now)]
      && db.livros == old(db.livros)[req.livroId := old(db.livros)[req.livroId].(status := Emprestado)]
  {
    if !ValidEmprestimo(req) {
      return Err(Invalid), 0;
    }
    var resolved := ResolverUsuario(db, caller, req.usuarioId, now);
    if resolved.Err? {
      return Err(resolved.error), 0;
    }
    var u := resolved.value;
    uid := u;
    r := Emprestar(db, u, req.livroId, req.observacoes, now);
  }

  /** `obter_emprestimo` (admins only): one loan by id. */
  method ObterEmprestimo(db: Db, caller: CurrentUser, emprestimoId: int) returns (r: Result<Emprestimo>)
    ensures !caller.isAdmin ==> r == Err(Forbidden)
    ensures caller.isAdmin ==> (r.Ok? <==> emprestimoId in db.emprestimos)
    ensures caller.isAdmin && r.Err? ==> r.error == NotFound
    ensures r.Ok? ==> r.value == db.emprestimos[emprestimoId]
  {
    if !caller.isAdmin {
      return Err(Forbidden);
    }
    if emprestimoId !in db.emprestimos {
      return Err(NotFound);
    }
    r := Ok(db.emprestimos[emprestimoId]);
  }

  /** The loan row after its return: closed at `now`, the fee the override
      or zero, the notes replaced only by non-empty new notes. */
  function Fechado(e: Emprestimo, multa: Option<int>, observacoes: Option<string>, now: int): (f: Emprestimo)
    ensures f.status == Devolvido && f.dataDevolucaoReal == Some(now) && f.multa == multa.GetOr(0)
    ensures f.observacoes == if observacoes.Some? && observacoes.value != "" then observacoes else e.observacoes
    ensures f.usuarioId == e.usuarioId && f.livroId == e.livroId
    ensures f.dataEmprestimo == e.dataEmprestimo && f.dataDevolucaoPrevista == e.dataDevolucaoPrevista
  {
    e.(dataDevolucaoReal := Some(now), status := Devolvido, multa := multa.GetOr(0),
       observacoes := if observacoes.Some? && observacoes.value != "" then observacoes else e.observacoes)
  }

  /** `devolver_livro` (admins only): closes an active loan and marks its
      book, if it still exists, available. */
  method DevolverLivro(db: Db, caller: CurrentUser, emprestimoId: int, multa: Option<int>, observacoes: Option<string>, now: int)
    returns (r: Outcome)
    requires db.Valid()
    modifies db
    ensures db.Valid()
    ensures old(db.LoansConsistent()) ==> db.LoansConsistent()
    ensures !caller.isAdmin ==> r == Failed(Forbidden)
    ensures caller.isAdmin && emprestimoId !in old(db.emprestimos) ==> r == Failed(NotFound)
    ensures caller.isAdmin && emprestimoId in old(db.emprestimos) && old(db.emprestimos)[emprestimoId].status != Ativo
            ==> r == Failed(BadRequest)
    ensures r.Done? <==> (caller.isAdmin && emprestimoId in old(db.emprestimos)
                          && old(db.emprestimos)[emprestimoId].status == Ativo)
    ensures r.Failed? ==> unchanged(db)
    ensures r.Done? ==>
      var e := old(db.emprestimos)[emprestimoId];
      && db.emprestimos == old(db.emprestimos)[emprestimoId := Fechado(e, multa, observacoes, now)]
      && db.livros == (if e.livroId in old(db.livros)
                       then old(db.livros)[e.livroId := old(db.livros)[e.livroId].(status := Disponivel)]
                       else old(db.livros))
      && db.usuarios == old(db.usuarios) && db.contas == old(db.contas) && db.reservas == old(db.reservas)
      && db.solicitacoes == old(db.solicitacoes) && db.autores == old(db.autores) && db.editoras == old(db.editoras)
  {
    if !caller.isAdmin {
      return Failed(Forbidden);
    }
    if emprestimoId !in db.emprestimos {
      return Failed(NotFound);
    }
    var e := db.emprestimos[emprestimoId];
    if e.status != Ativo {
      return Failed(BadRequest);
    }
    var f := Fechado(e, multa, observacoes, now);
    if db.LoansConsistent() {
      ReturnKeepsAgreement(db.livros, db.emprestimos, emprestimoId, f);
    }
    db.emprestimos := db.emprestimos[emprestimoId := f];
    if e.livroId in db.livros {
      db.livros := db.livros[e.livroId := db.livros[e.livroId].(status := Disponivel)];
    }
    r := Done;
  }

  /** `listar_emprestimos` (admins only): the loans whose borrower and book
      both exist (the query joins both tables), optionally of one status. */
  method ListarEmprestimos(db: Db, caller: CurrentUser, statusFilter: Option<StatusEmprestimo>) returns (r: Result<seq<int>>)
    ensures !caller.isAdmin <==> r == Err(Forbidden)
    ensures r.Ok? ==> StrictlyIncreasing(r.value)
    ensures r.Ok? ==> forall k :: k in r.value <==>
      && k in db.emprestimos
      && db.emprestimos[k].usuarioId in db.usuarios && db.emprestimos[k].livroId in db.livros
      && (statusFilter.Some? ==> db.emprestimos[k].status == statusFilter.value)
  {
    if !caller.isAdmin {
      return Err(Forbidden);
    }
    var usuarios, livros := db.usuarios, db.livros;
    var ks := Scan(db.emprestimos, (e: Emprestimo) =>
      e.usuarioId in usuarios && e.livroId in livros && (statusFilter.Some? ==> e.status == statusFilter.value));
    r := Ok(ks);
  }

  /** `listar_emprestimos_usuario` (admins only): every loan of one
      profile. */
  method ListarEmprestimosUsuario(db: Db, caller: CurrentUser, usuarioId: int) returns (r: Result<seq<int>>)
    ensures !caller.isAdmin <==> r == Err(Forbidden)
    ensures r.Ok? ==> StrictlyIncreasing(r.value)
    ensures r.Ok? ==> forall k :: k in r.value <==> k in db.emprestimos && db.emprestimos[k].usuarioId == usuarioId
  {
    if !caller.isAdmin {
      return Err(Forbidden);
    }
    var ks := Scan(db.emprestimos, (e: Emprestimo) => e.usuarioId == usuarioId);
    r := Ok(ks);
  }

  /** Returning the same loan twice: the second return is refused, because
      the loan is no longer active. */
  method DevolverDuasVezes(db: Db, caller: CurrentUser, emprestimoId: int, now: int, later: int)
    returns (first: Outcome, second: Outcome)
    requires db.Valid()
    modifies db
    ensures first.Done? ==> second == Failed(BadRequest)
  {
    first := DevolverLivro(db, caller, emprestimoId, None, None, now);
    second := DevolverLivro(db, caller, emprestimoId, None, None, later);
  }

  /** Lending the same book twice: the second loan is refused, because the
      book is no longer available. */
  method EmprestarDuasVezes(db: Db, caller: CurrentUser, req: EmprestimoCreate, now: int)
    returns (first: Result<int>, second: Result<int>)
    requires db.Valid()
    modifies db
    ensures first.Ok? ==> second == Err(BadRequest)
  {
    ghost var u1, u2;
    first, u1 := CriarEmprestimo(db, caller, req, now);
    second, u2 := CriarEmprestimo(db, caller, req, now);
  }
}
