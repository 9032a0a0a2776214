/** Reservations (app/api/endpoints/reservas.py): only a book that is lent
    out can be reserved, and a profile holds at most one pending
    reservation of a given book. */
module Reservas {
  import opened Common
  import opened Models
  import opened Store

  /** The body of a reservation request. */
  datatype ReservaCreate = ReservaCreate(usuarioId: int, livroId: int)

  /** Profile `usuarioId` has a pending reservation of book `livroId`. */
  predicate HasPendingReservation(reservas: map<int, Reserva>, usuarioId: int, livroId: int) {
    exists k :: k in reservas && reservas[k].usuarioId == usuarioId && reservas[k].livroId == livroId
                && reservas[k].status == Pendente
  }

  /** No two pending reservations share both profile and book. */
  ghost predicate PendingUnique(reservas: map<int, Reserva>) {
    forall a, b ::
      a in reservas && b in reservas && a != b && reservas[a].status == Pendente && reservas[b].status == Pendente
      ==> reservas[a].usuarioId != reservas[b].usuarioId || reservas[a].livroId != reservas[b].livroId
  }

  /** The reservation row the handler means to insert: pending, valid for
      seven days (the handler's own validity, not the column's default of
      two). */
  function ReservaNova(usuarioId: int, livroId: int, now: int): (r: Reserva)
    ensures r.usuarioId == usuarioId && r.livroId == livroId && r.status == Pendente
    ensures r.dataReserva == now && r.dataExpiracao == now + 7 * Day
  {
    NovaReserva(usuarioId, livroId, now).(dataExpiracao := now + 7 * Day)
  }

  /** Inserting a pending reservation that has no pending twin keeps
      pending reservations unique. */
  lemma {:induction false} InsertPendingKeepsUnique(reservas: map<int, Reserva>, id: int, r: Reserva)
    requires PendingUnique(reservas) && id !in reservas
    requires !HasPendingReservation(reservas, r.usuarioId, r.livroId)
    ensures PendingUnique(reservas[id := r])
  {
    var after := reservas[id := r];
    forall a, b | a in after && b in after && a != b && after[a].status == Pendente && after[b].status == Pendente
      ensures after[a].usuarioId != after[b].usuarioId || after[a].livroId != after[b].livroId
    {
      if a == id {
        assert b in reservas && reservas[b] == after[b];
      } else if b == id {
        assert a in reservas && reservas[a] == after[a];
      }
    }
  }

  /** The first check of `create_reserva` that refuses a request, if any:
      an unknown book, a book that is not lent out, an unknown profile,
      or a pending reservation of the same book by the same profile. */
  function Refusal(livros: map<int, Livro>, usuarios: map<int, Usuario>, reservas: map<int, Reserva>,
                   req: ReservaCreate): (e: Option<Error>)
    ensures req.livroId !in livros ==> e == Some(NotFound)
    ensures req.livroId in livros && livros[req.livroId].status != Emprestado ==> e == Some(BadRequest)
    ensures (req.livroId in livros && livros[req.livroId].status == Emprestado
             && req.usuarioId !in usuarios) ==> e == Some(NotFound)
    ensures (req.livroId in livros && livros[req.livroId].status == Emprestado && req.usuarioId in usuarios) ==>
            (e.Some? <==> HasPendingReservation(reservas, req.usuarioId, req.livroId))
            && (e.Some? ==> e == Some(BadRequest))
  {
    if req.livroId !in livros then Some(NotFound)
    else if livros[req.livroId].status != Emprestado then Some(BadRequest)
    else if req.usuarioId !in usuarios then Some(NotFound)
    else if HasPendingReservation(reservas, req.usuarioId, req.livroId) then Some(BadRequest)
    else None
  }

  /** The keywords `create_reserva` passes to the reservation row as
      written: `data_validade` names no column of `reservas`. */
  const ReservaKeywords: seq<string> := ["usuario_id", "livro_id", "status", "data_validade"]

  /** `create_reserva` as written: the same checks, after which building
      the row raises TypeError on `data_validade`, so no request ever
      stores a reservation and every request fails. */
  function CreateReservaAsWritten(livros: map<int, Livro>, usuarios: map<int, Usuario>, reservas: map<int, Reserva>,
                                  req: ReservaCreate): (r: Outcome)
    ensures r.Failed?
    ensures Refusal(livros, usuarios, reservas, req).Some? ==> r.error == Refusal(livros, usuarios, reservas, req).value
    ensures Refusal(livros, usuarios, reservas, req).None? ==> r == Failed(Unhandled)
  {
    match Refusal(livros, usuarios, reservas, req)
    case Some(e) => Failed(e)
    case None =>
      assert "data_validade" in ReservaKeywords && "data_validade" !in ReservaColumns;
      ConstructRow(ReservaColumns, ReservaKeywords)
  }

  /** `create_reserva`: the book must exist and be lent out, the profile
      must exist and must not already have a pending reservation of the
      book; then a pending reservation valid for seven days is added, with
      the validity written to the expiry column. */
  method CreateReserva(db: Db, req: ReservaCreate, now: int) returns (r: Result<int>)
    requires db.Valid()
    modifies db
    ensures db.Valid()
    ensures PendingUnique(old(db.reservas)) ==> PendingUnique(db.reservas)
    ensures req.livroId !in old(db.livros) ==> r == Err(NotFound)
    ensures req.livroId in old(db.livros) && old(db.livros)[req.livroId].status != Emprestado ==> r == Err(BadRequest)
    ensures (req.livroId in old(db.livros) && old(db.livros)[req.livroId].status == Emprestado
             && req.usuarioId !in old(db.usuarios)) ==> r == Err(NotFound)
    ensures (req.livroId in old(db.livros) && old(db.livros)[req.livroId].status == Emprestado
             && req.usuarioId in old(db.usuarios)) ==>
            (r.Err? <==> HasPendingReservation(old(db.reservas), req.usuarioId, req.livroId))
    ensures r.Err? ==> unchanged(db)
    ensures r.Ok? ==>
      && r.value !in old(db.reservas)
      && db.reservas == old(db.reservas)[r.value := ReservaNova(req.usuarioId, req.livroId, now)]
      && db.livros == old(db.livros) && db.usuarios == old(db.usuarios) && db.contas == old(db.contas)
      && db.emprestimos == old(db.emprestimos) && db.solicitacoes == old(db.solicitacoes)
      && db.autores == old(db.autores) && db.editoras == old(db.editoras)
  {
    var refusal := Refusal(db.livros, db.usuarios, db.reservas, req);
    if refusal.Some? {
      return Err(refusal.value);
    }
    var id := NewId(db.reservas);
    var nova := ReservaNova(req.usuarioId, req.livroId, now);
    if PendingUnique(db.reservas) {
      InsertPendingKeepsUnique(db.reservas, id, nova);
    }
    db.reservas := db.reservas[id := nova];
    r := Ok(id);
  }

  /** `read_reservas`: every reservation, or only one profile's when a
      non-zero profile id is given (zero is falsy and means no filter). */
  method ReadReservas(db: Db, usuarioId: Option<int>) returns (ks: seq<int>)
    ensures StrictlyIncreasing(ks)
    ensures forall k :: k in ks <==>
      k in db.reservas && (usuarioId.Some? && usuarioId.value != 0 ==> db.reservas[k].usuarioId == usuarioId.value)
  {
    if usuarioId.Some? && usuarioId.value != 0 {
      var u := usuarioId.value;
      ks := Scan(db.reservas, (x: Reserva) => x.usuarioId == u);
    } else {
      ks := Scan(db.reservas, (x: Reserva) => true);
    }
  }

  /** `cancel_reserva`: marks a reservation cancelled, whatever its
      current status. */
  method CancelReserva(db: Db, reservaId: int) returns (r: Outcome)
    requires db.Valid()
    modifies db
    ensures db.Valid()
    ensures PendingUnique(old(db.reservas)) ==> PendingUnique(db.reservas)
    ensures r.Failed? <==> reservaId !in old(db.reservas)
    ensures r.Failed? ==> r.error == NotFound && unchanged(db)
    ensures r.Done? ==>
      && db.reservas == old(db.reservas)[reservaId := old(db.reservas)[reservaId].(status := Cancelada)]
      && db.livros == old(db.livros) && db.usuarios == old(db.usuarios) && db.contas == old(db.contas)
      && db.emprestimos == old(db.emprestimos) && db.solicitacoes == old(db.solicitacoes)
      && db.autores == old(db.autores) && db.editoras == old(db.editoras)
  {
    if reservaId !in db.reservas {
      return Failed(NotFound);
    }
    db.reservas := db.reservas[reservaId := db.reservas[reservaId].(status := Cancelada)];
    r := Done;
  }

  /** Cancelling a pending reservation frees its profile and book: no
      pending reservation of the pair is left, so a new request for it is
      no longer refused. */
  lemma {:induction false} CancelFreesSlot(reservas: map<int, Reserva>, id: int)
    requires PendingUnique(reservas) && id in reservas && reservas[id].status == Pendente
    ensures var x := reservas[id];
      !HasPendingReservation(reservas[id := x.(status := Cancelada)], x.usuarioId, x.livroId)
  {
    var x := reservas[id];
    var after := reservas[id := x.(status := Cancelada)];
    forall k | k in after && after[k].usuarioId == x.usuarioId && after[k].livroId == x.livroId
      ensures after[k].status != Pendente
    {
      if k != id {
        assert reservas[k] == after[k];
      }
    }
  }
}
