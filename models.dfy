/** The rows of the library's relational schema (app/models/models.py):
    enumerations, one record per table, and the column defaults applied
    when a row is inserted. Times are seconds since an arbitrary epoch;
    dates are whole seconds as well. */
module Models {
  import opened Common

  /** Seconds in a day, for `timedelta(days=n)`. */
  const Day: int := 86400

  datatype StatusLivro = Disponivel | Emprestado | Reservado | EmManutencao

  datatype StatusEmprestimo = Ativo | Finalizado | Atrasado | Devolvido

  datatype TipoUsuario = Aluno | Professor | Funcionario | Administrador

  /** The states a reservation takes: "pendente, concluída, cancelada,
      expirada". */
  datatype StatusReserva = Pendente | Concluida | Cancelada | Expirada

  /** The states of an author request: pending (`PENDENTE`, named
      `Aguardando` here so that it does not clash with the reservation
      state `Pendente`), approved and rejected. */
  datatype StatusSolicitacao = Aguardando | Aprovada | Rejeitada

  datatype Autor = Autor(
    nome: string,
    nacionalidade: Option<string>,
    dataNascimento: Option<int>,
    biografia: Option<string>)

  /** A publisher, with the fields its request schema carries. */
  datatype Editora = Editora(
    nome: string,
    endereco: Option<string>,
    telefone: Option<string>,
    email: Option<string>,
    website: Option<string>)

  datatype Livro = Livro(
    titulo: string,
    subtitulo: Option<string>,
    autorId: int,
    editoraId: Option<int>,
    isbn: string,
    edicao: int,
    anoPublicacao: Option<int>,
    numPaginas: Option<int>,
    sinopse: Option<string>,
    idioma: string,
    status: StatusLivro,
    capaUrl: Option<string>,
    dataCadastro: int)

  /** A borrower profile (table `usuarios`). */
  datatype Usuario = Usuario(
    nome: string,
    email: string,
    cpf: Option<string>,
    matricula: Option<string>,
    tipo: TipoUsuario,
    curso: Option<string>,
    telefone: Option<string>,
    endereco: Option<string>,
    dataNascimento: Option<int>,
    dataCadastro: int,
    ativo: bool)

  /** A login account (table `usuarios_auth`), with the columns the
      handlers read and write. */
  datatype UsuarioAuth = UsuarioAuth(
    matricula: Option<string>,
    nome: string,
    email: string,
    senhaHash: string,
    isAdmin: bool,
    criadoEm: int,
    ultimoLogin: Option<int>)

  /** A loan. The fee is kept in integer cents. */
  datatype Emprestimo = Emprestimo(
    usuarioId: int,
    livroId: int,
    dataEmprestimo: int,
    dataDevolucaoPrevista: int,
    dataDevolucaoReal: Option<int>,
    status: StatusEmprestimo,
    multa: int,
    observacoes: Option<string>)

  datatype Reserva = Reserva(
    usuarioId: int,
    livroId: int,
    dataReserva: int,
    dataExpiracao: int,
    status: StatusReserva)

  /** A user's proposal of a new author, awaiting moderation. */
  datatype SolicitacaoAutor = SolicitacaoAutor(
    nome: string,
    nacionalidade: Option<string>,
    dataNascimento: Option<int>,
    biografia: Option<string>,
    solicitanteId: int,
    status: StatusSolicitacao,
    dataSolicitacao: int,
    aprovadoPorId: Option<int>,
    dataAprovacao: Option<int>,
    observacoes: Option<string>)

  /** The caller, as resolved from the bearer token: the login account's
      id and the fields the handlers read. */
  datatype CurrentUser = CurrentUser(
    id: int,
    nome: string,
    email: string,
    matricula: Option<string>,
    isAdmin: bool)

  /** A row of the book/category association table; both columns form the
      primary key. */
  datatype LivroCategoria = LivroCategoria(livroId: int, categoriaId: int)

  // ---------------------------------------------------------------------
  // Column defaults

  /** A loan row as inserted with only its references and notes given:
      active, no fee, not returned, due fourteen days after it is made. */
  function NovoEmprestimo(usuarioId: int, livroId: int, observacoes: Option<string>, now: int): (e: Emprestimo)
    ensures e.usuarioId == usuarioId && e.livroId == livroId && e.observacoes == observacoes
    ensures e.status == Ativo && e.multa == 0 && e.dataDevolucaoReal == None
    ensures e.dataEmprestimo == now && e.dataDevolucaoPrevista == e.dataEmprestimo + 14 * Day
  {
    Emprestimo(usuarioId, livroId, now, now + 14 * Day, None, Ativo, 0, observacoes)
  }

  /** A reservation row as inserted with only its references given:
      pending, expiring two days after it is made. */
  function NovaReserva(usuarioId: int, livroId: int, now: int): (r: Reserva)
    ensures r.usuarioId == usuarioId && r.livroId == livroId
    ensures r.status == Pendente && r.dataReserva == now && r.dataExpiracao == r.dataReserva + 2 * Day
  {
    Reserva(usuarioId, livroId, now, now + 2 * Day, Pendente)
  }

  /** A book status given on insert, or the column default. */
  function StatusInicial(status: Option<StatusLivro>): (s: StatusLivro)
    ensures status == None ==> s == Disponivel
    ensures status.Some? ==> s == status.value
  {
    status.GetOr(Disponivel)
  }

  /** A profile type given on insert, or the column default. */
  function TipoInicial(tipo: Option<TipoUsuario>): (t: TipoUsuario)
    ensures tipo == None ==> t == Aluno
    ensures tipo.Some? ==> t == tipo.value
  {
    tipo.GetOr(Aluno)
  }

  // ---------------------------------------------------------------------
  // The association table's composite primary key

  predicate NoDuplicateLinks(rows: seq<LivroCategoria>) {
    forall i, j :: 0 <= i < j < |rows| ==> rows[i] != rows[j]
  }

  /** Inserting a (book, category) pair: the primary key refuses a pair
      already present, so no pair is ever stored twice. */
  function InsertLink(rows: seq<LivroCategoria>, row: LivroCategoria): (r: Result<seq<LivroCategoria>>)
    ensures r.Ok? <==> row !in rows
    ensures r.Ok? ==> r.value == rows + [row]
    ensures NoDuplicateLinks(rows) && r.Ok? ==> NoDuplicateLinks(r.value)
  {
    if row in rows then Err(Integrity) else Ok(rows + [row])
  }

  // ---------------------------------------------------------------------
  // Rows built and patched by keyword

  /** The mapped columns of table `usuarios`, by attribute name. */
  const UsuarioColumns: seq<string> :=
    ["id", "nome", "email", "cpf", "matricula", "tipo", "curso", "telefone", "endereco",
     "data_nascimento", "data_cadastro", "ativo"]

  /** The mapped columns of table `reservas`, by attribute name. */
  const ReservaColumns: seq<string> := ["id", "usuario_id", "livro_id", "data_reserva", "data_expiracao", "status"]

  /** The mapped columns of table `editoras`, by attribute name. */
  const EditoraColumns: seq<string> := ["id", "nome", "cidade", "pais"]

  /** The keywords that name no column, in order. */
  function UnknownKeywords(columns: seq<string>, keywords: seq<string>): (r: seq<string>)
    ensures forall k :: k in r <==> k in keywords && k !in columns
  {
    if keywords == [] then []
    else (if keywords[0] in columns then [] else [keywords[0]]) + UnknownKeywords(columns, keywords[1..])
  }

  /** The declarative constructor `Model(**kw)`: a keyword that is not an
      attribute of the class raises TypeError, and no row is built.
      `columns` lists the mapped columns; relationship names are accepted
      too, but no handler passes one, so they are not listed. */
  function ConstructRow(columns: seq<string>, keywords: seq<string>): (r: Outcome)
    ensures r.Done? <==> forall k :: k in keywords ==> k in columns
    ensures r.Failed? ==> r.error == Unhandled
  {
    var unknown := UnknownKeywords(columns, keywords);
    if unknown == [] then Done
    else
      assert unknown[0] in unknown;
      Failed(Unhandled)
  }

  /** The columns a run of `setattr(row, key, value)` changes: a key that
      names a mapped column changes it; any other key only sets a plain
      attribute on the object, which is never written to the table. */
  function ColumnsWritten(columns: seq<string>, keys: seq<string>): (r: seq<string>)
    ensures forall k :: k in r <==> k in keys && k in columns
  {
    if keys == [] then []
    else (if keys[0] in columns then [keys[0]] else []) + ColumnsWritten(columns, keys[1..])
  }
}
