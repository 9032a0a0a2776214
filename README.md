# Biblioteca — a verified model of the library API's business rules

Biblioteca is a library management web application (FastAPI over SQLAlchemy and SQLite). Admins keep a catalogue of books, authors and publishers. Users register, borrow and return books, reserve books that are lent out, and propose new authors for an admin to approve or reject. This project models the rules inside the request handlers, the scripts and helpers that generate registration numbers, the authentication schemas, and the two display formatters of the front end.

The relational store is one class, `Store.Db`, with one map from row id to row per table:

- books, profiles (`usuarios`), login accounts (`usuarios_auth`);
- loans, reservations, author requests, authors, publishers.

Each handler is a method that `modifies` the store. It either fails with one of the HTTP error classes and leaves every table as it was, or applies exactly the writes of a committed transaction. There is one exception: `Emprestimos.CriarEmprestimo` commits an automatically created profile before it checks the book, so that profile stays even when the loan is refused. Rows are read in ascending id, as SQLite scans a table by rowid, and a new row receives the largest id plus one.

`Db.Valid()` combines two kinds of uniqueness. Every handler preserves it.

- Unique constraints declared in app/models/models.py: book ISBN, and profile email, CPF and registration number.
- Uniqueness the handlers maintain by their own lookups, with no declared constraint behind it: account email (the lookups in `register_user` and in create_admin.py) and publisher name (the name lookups in the publisher handlers; `editoras.nome` is not declared unique).

Two further invariants are preserved where the code keeps them:

- "a book is lent out exactly when one active loan references it", by lending and returning;
- "books reference existing authors and publishers", by the catalogue handlers.

Lemmas and scenario methods prove the stated properties on top of the handlers' contracts:

- the account listing's merge order and de-duplication;
- the terminal states of author requests;
- "returning twice fails";
- the freshness of generated registration numbers;
- round trips of the formatters and validators.

Modules follow the source files: `Models` (app/models/models.py), `Store` (the tables and their constraints), `Emprestimos`, `Reservas`, `Solicitacoes`, `Livros`, `Editoras`, `Usuarios`, `Auth` (the endpoint files), `Schemas` (app/schemas/auth.py), `CreateAdmin` (create_admin.py), `Formatting` (app/static/js/main.js). Shared pieces sit in `Common` (results, `max`) and `Text` (ASCII case folding, substring search, decimal formatting and parsing).

The inputs that are not state are parameters:

- the clock: `now`, in seconds;
- the current year;
- the password hash;
- the authenticated caller: a `CurrentUser` record carrying id, name, email, registration number and admin flag.

Where the code and its documentation disagree, the model follows the code:

- Deleting a book or a profile has no loan check of its own. The relationships from books and profiles to their loans, and from profiles to their reservations, have no delete cascade. So the ORM sets those rows' NOT NULL foreign key to NULL, and the commit fails with an integrity error while any such row exists, whatever its state. Reservations of a deleted book have no collection on the book's side, so they stay behind.
- Loan fees have no late-fee formula: the fee is the override given, or 0.
- The profile update and delete handlers compare the caller's login-account id with the profile id, although the two come from different tables. The model does the same.
- Several definitions the handlers import are missing from app/models/models.py: the reservation and author-request states, the login account and the author request. They are declared from their use in the handlers.
- The publisher record follows the handler's schema (name, address, phone, email, website) rather than the table (name, city, country). The intended handlers store those fields. The code as written cannot, and "## Findings" has a row for each of the two cases below.
- One exception to following the code: where what a handler writes and its table disagree, the model follows the evident intent and writes the table's columns. The code as written is modelled beside it, and "## Findings" lists each case:
  - `create_reserva` passes `data_validade`, which is not a column of `reservas`, so building the row raises TypeError.
  - `create_user` reads `usuario.email`, but its request schema (app/schemas/user.py) has no `email` field, so the handler fails before it writes anything.
  - `update_user` sets the schema's fields (`name`, `registration`, `course`, `is_active`) with `setattr`. None of them is a mapped column, so the update changes no column.
  - The profile `criar_emprestimo` creates for a caller without one has no CPF, which is a NOT NULL column, so its commit fails.
  - `criar_editora` builds the row with the schema's `endereco`, `telefone`, `email` and `website`, none of which is a column of `editoras`, so no publisher can be created.
  - `atualizar_editora` sets those four fields with `setattr`, so only the name of an update persists.
- `register_user` reads plain form fields, so the validators of `RegisterRequest` do not run on it. `Auth.RegisterUser` checks only what the handler checks. `Schemas` models the validators on their own.
- The login-account table is not in app/models/models.py, so whether its registration number column is unique is not known. The model does not rely on such a constraint. Instead it proves that generated numbers are fresh.

## Model

| member | source | states |
|---|---|---|
| Models.StatusInicial | app/models/models.py:69 | a book inserted without a status is DISPONIVEL; a given status is kept |
| Models.TipoInicial | app/models/models.py:86 | a profile inserted without a type is ALUNO |
| Models.NovoEmprestimo | app/models/models.py:103-107 | a new loan is ATIVO with fee 0, no return date, and is due 14 days after its creation time |
| Models.NovaReserva | app/models/models.py:119-121 | a new reservation is pending and expires 2 days after it is made |
| Models.InsertLink | app/models/models.py:127-131 | inserting a (book, category) pair fails exactly when the pair is present; a table without repeats stays without repeats |
| Models.ConstructRow | app/api/endpoints/reservas.py:59-64 | a row is built exactly when every keyword names a mapped column; otherwise TypeError (a server error) |
| Models.ColumnsWritten | app/api/endpoints/usuarios.py:150-152 | `setattr` changes exactly the keys that name mapped columns |
| Store.ProfileWriteKeepsUnique | app/models/models.py:83-85 | writing a profile that clashes with no other row on email, CPF or registration number keeps the three unique indexes |
| Store.LendKeepsAgreement | app/api/endpoints/emprestimos.py:152-183 | lending an available book with a new active loan keeps "lent out iff exactly one active loan references it" |
| Store.ReturnKeepsAgreement | app/api/endpoints/emprestimos.py:251-267 | closing an active loan and marking its book available keeps the same agreement |
| Store.InsertAccountKeepsUnique | app/api/endpoints/auth.py:120-145 | a new account whose email is not stored keeps account emails unique |
| Store.RewriteAccountKeepsUnique | create_admin.py:90-100 | rewriting an account without changing its email keeps account emails unique |
| Store.NewId | app/models/models.py:58 | a new row id is absent from the table and larger than every id in it (1 in an empty table) |
| Emprestimos.PerfilAutomatico | app/api/endpoints/emprestimos.py:119-126 | the profile created for a non-admin caller carries the account's name, email and registration number, is ALUNO and active |
| Emprestimos.ResolverUsuario | app/api/endpoints/emprestimos.py:113-142 | an admin's unknown profile id fails with not-found; a non-admin resolves to the first profile with their registration number, created and committed first when there is none; nothing else changes |
| Emprestimos.AutoProfileRefusedAsWritten | app/api/endpoints/emprestimos.py:119-128 | as written, a caller without admin rights and without a profile always fails to resolve a borrower, and this is the only case where the code as written and the model differ |
| Emprestimos.Emprestar | app/api/endpoints/emprestimos.py:144-183 | unknown book: not-found; book not DISPONIVEL or an ATIVO loan of the pair: bad request, loans and books unchanged; the loan is granted exactly when the book exists, is DISPONIVEL and the pair has no ATIVO loan, and then exactly one new loan is added and that book alone becomes EMPRESTADO |
| Emprestimos.CriarEmprestimo | app/api/endpoints/emprestimos.py:103-183 | body bound first, then borrower resolution, then the lending rules; a valid request whose borrower resolves, for an existing DISPONIVEL book the borrower holds no ATIVO loan of, always yields a loan; a profile auto-created for a non-admin persists even when the loan is refused; the loan/book agreement is preserved |
| Emprestimos.ObterEmprestimo | app/api/endpoints/emprestimos.py:202-216 | admins only; the loan with that id, or not-found |
| Emprestimos.Fechado | app/api/endpoints/emprestimos.py:258-262 | a returned loan is DEVOLVIDO, returned now, with the fee override or 0, notes replaced only by non-empty notes, everything else kept |
| Emprestimos.DevolverLivro | app/api/endpoints/emprestimos.py:233-272 | admins only; missing loan: not-found; loan not ATIVO: bad request, nothing changes; it succeeds exactly when an admin returns an existing ATIVO loan, and then the loan is closed and its book, when it exists, becomes DISPONIVEL; the agreement is preserved |
| Emprestimos.ListarEmprestimos | app/api/endpoints/emprestimos.py:64-80 | admins only; exactly the loans whose profile and book exist, of the given status when one is given, in ascending id |
| Emprestimos.ListarEmprestimosUsuario | app/api/endpoints/emprestimos.py:289-298 | admins only; exactly the loans of that profile |
| Emprestimos.DevolverDuasVezes | app/api/endpoints/emprestimos.py:251-255 | after a successful return, returning the same loan again fails with bad request |
| Emprestimos.EmprestarDuasVezes | app/api/endpoints/emprestimos.py:152-156 | after a successful loan, requesting the same loan again fails with bad request |
| Reservas.ReservaNova | app/api/endpoints/reservas.py:59-64 | the inserted reservation is pending, for the given profile and book, valid for 7 days |
| Reservas.InsertPendingKeepsUnique | app/api/endpoints/reservas.py:46-66 | adding a pending reservation without a pending twin keeps one pending reservation per (profile, book) |
| Reservas.Refusal | app/api/endpoints/reservas.py:22-56 | the checks in order: unknown book and unknown profile are not-found; a book not EMPRESTADO and a pending reservation of the pair are bad request; no refusal otherwise |
| Reservas.CreateReservaAsWritten | app/api/endpoints/reservas.py:59-64 | as written, every request fails: a refused one with its check's error, an accepted one with the TypeError of the unknown keyword `data_validade` |
| Reservas.CreateReserva | app/api/endpoints/reservas.py:15-69 | unknown book: not-found; book not EMPRESTADO: bad request; unknown profile: not-found; a pending reservation of the pair: bad request; otherwise one new pending reservation and no book changes |
| Reservas.ReadReservas | app/api/endpoints/reservas.py:72-87 | every reservation, or exactly that profile's when a non-zero profile id is given |
| Reservas.CancelReserva | app/api/endpoints/reservas.py:90-107 | unknown id: not-found; otherwise the reservation becomes CANCELADA whatever it was, and nothing else changes |
| Reservas.CancelFreesSlot | app/api/endpoints/reservas.py:46-56 | after cancelling a pending reservation, its (profile, book) pair has no pending reservation, so a new one is accepted |
| Solicitacoes.NovaSolicitacao | app/api/endpoints/solicitacoes_autores.py:57-60 | a submitted request carries the body's fields, the caller as requester, and is pending and unmoderated |
| Solicitacoes.AutorDe | app/api/endpoints/solicitacoes_autores.py:156-161 | the approved author copies name, nationality, birth date and biography |
| Solicitacoes.CriarSolicitacaoAutor | app/api/endpoints/solicitacoes_autores.py:28-63 | refused when an author's name, or a pending request's name, contains the requested name ignoring case; otherwise exactly one request by the caller is added |
| Solicitacoes.ListarSolicitacoesAutores | app/api/endpoints/solicitacoes_autores.py:75-101 | admins only; every request, or those of the given status |
| Solicitacoes.ObterSolicitacaoAutor | app/api/endpoints/solicitacoes_autores.py:104-131 | admins only; the request with that id, or not-found |
| Solicitacoes.AprovarSolicitacaoAutor | app/api/endpoints/solicitacoes_autores.py:134-171 | missing: not-found; not pending: bad request and no author; otherwise exactly one author copied from the request, the request APROVADA by this admin, now |
| Solicitacoes.RejeitarSolicitacaoAutor | app/api/endpoints/solicitacoes_autores.py:174-204 | missing: not-found; not pending: bad request; otherwise REJEITADA with moderator, date and notes, and no author is created |
| Solicitacoes.ListarMinhasSolicitacoes | app/api/endpoints/solicitacoes_autores.py:207-218 | exactly the requests whose requester is the caller |
| Solicitacoes.AprovarEDepois | app/api/endpoints/solicitacoes_autores.py:149-153 | after an approval, approving or rejecting the same request fails |
| Solicitacoes.RejeitarEDepois | app/api/endpoints/solicitacoes_autores.py:190-194 | after a rejection, approving or rejecting fails and no author is created |
| Livros.NovoLivro | app/api/endpoints/livros.py:57 | the inserted book carries every field of the body (title, subtitle, author, publisher, ISBN, year, pages, synopsis, cover, and a given edition, language and status), with edition 1, language "Português" and status DISPONIVEL where not given |
| Livros.AplicarIdempotente | app/api/endpoints/livros.py:156-157 | applying the same update twice equals applying it once |
| Livros.SameStatusKeepsAgreement | app/api/endpoints/livros.py:155-157 | an update that leaves a book's status alone keeps the loan/book agreement |
| Livros.RewriteKeepsIsbnUnique | app/api/endpoints/livros.py:144-157 | rewriting a book with its own ISBN or one no other book has keeps ISBNs unique |
| Livros.CreateLivro | app/api/endpoints/livros.py:23-62 | admins only; unknown author: not-found; a truthy publisher id that does not exist: not-found; an ISBN present: bad request; otherwise one new book and nothing else changes |
| Livros.ReadLivro | app/api/endpoints/livros.py:90-103 | the book with that id, or not-found |
| Livros.IsbnOfAnother | app/api/endpoints/livros.py:145-148 | the query is true exactly when a book other than this one has the ISBN |
| Livros.UpdateLivro | app/api/endpoints/livros.py:106-162 | admins only; missing book, unknown author or truthy unknown publisher: not-found; another book with the new ISBN: bad request; otherwise only the fields sent change |
| Livros.DeleteLivro | app/api/endpoints/livros.py:165-183 | admins only; unknown: not-found; an existing book is removed exactly when no loan, in any state, references it, and otherwise the commit fails with an integrity error and nothing changes; loans keep referencing existing books |
| Livros.InsertByTitleSorted | app/api/endpoints/livros.py:84 | inserting into a title-ordered list keeps it ordered by title |
| Livros.SortByTitleSorted | app/api/endpoints/livros.py:84 | the sort orders ids by title, ascending |
| Livros.ReadLivros | app/api/endpoints/livros.py:65-87 | each book whose title contains the search term ignoring case (all books for no term) exactly once, ordered by title |
| Editoras.RenameKeepsUnique | app/api/endpoints/editoras.py:107-117 | renaming a publisher to its own name or an unused one keeps names unique |
| Editoras.ListarEditoras | app/api/endpoints/editoras.py:45-51 | every publisher |
| Editoras.CriarEditora | app/api/endpoints/editoras.py:53-74 | admins only; accepted exactly when no publisher has the same name, adding exactly that publisher (the corrected half of its Findings row) |
| Editoras.CriarEditoraAsWritten | app/api/endpoints/editoras.py:53-74 | as written, every request fails: after the admin, body and name checks, building the row raises TypeError on the schema fields the table lacks |
| Editoras.ObterEditora | app/api/endpoints/editoras.py:76-87 | the publisher with that id, or not-found |
| Editoras.AtualizarEditora | app/api/endpoints/editoras.py:90-122 | admins only; name uniqueness is checked only for a new, different name; only the fields sent change (the corrected half of its Findings row) |
| Editoras.PatchKeys | app/api/endpoints/editoras.py:114 | the keys of `dict(exclude_unset=True)` are exactly the fields sent |
| Editoras.UpdateWritesOnlyNameAsWritten | app/api/endpoints/editoras.py:114-117 | as written, of the keys the update sets, only `nome` names a column, so only the name persists |
| Editoras.DeletarEditora | app/api/endpoints/editoras.py:125-149 | admins only; unknown: not-found; refused while a book references it; otherwise removed |
| Usuarios.KeyFor | app/api/endpoints/usuarios.py:64-69 | a key, when there is one, starts with 'm' (registration number) or 'e' (email), so it never collides with the `id:` and `auth_id:` fallback keys |
| Usuarios.KeyForMatches | app/api/endpoints/usuarios.py:64-69 | two people share a key exactly when they have the same non-empty registration number, or neither has one and their emails agree ignoring case |
| Usuarios.PutSpec | app/api/endpoints/usuarios.py:86-90 | assigning an existing dictionary key keeps its place and replaces its entry; a new key goes last |
| Usuarios.MergePerfisKeys | app/api/endpoints/usuarios.py:73-90 | after the profile loop the keys are those of the profiles, each once, in order of first assignment |
| Usuarios.MergeAuthKeys | app/api/endpoints/usuarios.py:94-113 | the account loop adds every key not yet listed, once, in order |
| Usuarios.LastProfileWins | app/api/endpoints/usuarios.py:86-90 | a profile that no later profile shares a key with is the entry stored under its key after the first loop |
| Usuarios.AuthKeepsEntry | app/api/endpoints/usuarios.py:94-98 | the account loop never replaces an entry already listed under a key that is not an `auth_id:` key |
| Usuarios.FirstAuthWins | app/api/endpoints/usuarios.py:94-113 | an account whose key is not yet listed and that no earlier account shares is the entry stored under that key |
| Usuarios.ListingKeys | app/api/endpoints/usuarios.py:62-116 | the listing has no two entries with the same key, and its keys are the profile keys then the account keys, in first-insertion order |
| Usuarios.ListingProfileWins | app/api/endpoints/usuarios.py:73-90 | the profile with the largest id among those sharing a key is the entry listed under it |
| Usuarios.ListingPrefersProfile | app/api/endpoints/usuarios.py:94-98 | a key some profile has lists a full profile, never a login account |
| Usuarios.ListingFirstAuthWins | app/api/endpoints/usuarios.py:94-113 | the account with the smallest id among those sharing a key that no profile has is the entry listed under it |
| Usuarios.ReadUsers | app/api/endpoints/usuarios.py:50-116 | the two loops build exactly the listing above |
| Usuarios.NovoUsuario | app/api/endpoints/usuarios.py:43 | a created profile carries every field of the body (name, email, CPF, registration number, course, phone, address, birth date, and a given type), is ALUNO when no type is given, and is active |
| Usuarios.CreateUser | app/api/endpoints/usuarios.py:34-47 | an email already stored: bad request; otherwise the profile is added exactly when it has a CPF and a registration number (NOT NULL columns) and clashes with no unique index, and otherwise fails with an integrity error |
| Usuarios.CreateUserFailsAsWritten | app/api/endpoints/usuarios.py:38-43 | as written, the request schema has no `email` for the lookup, and its fields could not build a row |
| Usuarios.UpdateUserWritesNothingAsWritten | app/api/endpoints/usuarios.py:150-152 | as written, the fields of an update body change no column of the profile |
| Usuarios.ReadUser | app/api/endpoints/usuarios.py:119-130 | the profile with that id, or not-found |
| Usuarios.UpdateWithoutIdentityFits | app/api/endpoints/usuarios.py:150-155 | an update sending none of email, CPF and registration number never breaks a unique index |
| Usuarios.UpdateUser | app/api/endpoints/usuarios.py:133-157 | unknown id: not-found; caller id differing from the profile id: forbidden; otherwise only the fields sent change, unless the result lacks a CPF or registration number (NOT NULL columns) or a unique index refuses it |
| Usuarios.DeleteUser | app/api/endpoints/usuarios.py:160-178 | unknown id: not-found; caller id differing: forbidden; otherwise the profile is removed exactly when no loan or reservation references it, and otherwise the commit fails with an integrity error and nothing changes; loans and reservations keep referencing existing profiles |
| Usuarios.UpdateThenRead | app/api/endpoints/usuarios.py:119-157 | reading a profile after updating it returns the updated profile, or the old one if the update was refused |
| Usuarios.DeleteThenRead | app/api/endpoints/usuarios.py:119-178 | deleting one's own profile succeeds exactly when no loan or reservation references it, and a read then fails with not-found; otherwise the delete fails with an integrity error and the read returns the profile unchanged |
| Auth.NextNumberUnique | app/api/endpoints/auth.py:42 | the next sequence number is determined by the accounts and the year |
| Auth.MatriculaFresh | app/api/endpoints/auth.py:31-48 | for a four-digit year, a number above every parsed same-year suffix gives a registration number that reads back as that number and equals no stored one |
| Auth.GenerateMatricula | app/api/endpoints/auth.py:21-48 | the year followed by 1 + the largest parsed suffix of same-year numbers of length ≥ 7 (1 when none; unparsable suffixes ignored), padded to 3 digits |
| Auth.NovaConta | app/api/endpoints/auth.py:134-139 | the registered account is not an admin and stores the email lower-cased |
| Auth.RegisterUser | app/api/endpoints/auth.py:103-152 | different passwords or a stored lower-cased email: bad request and nothing changes; otherwise exactly one account with the generated number, which no other account has |
| Schemas.ValidateEmail | app/schemas/auth.py:9-13 | refused exactly when there is no '@'; accepted values are lower-cased and keep their '@' |
| Schemas.ValidateEmailIgnoresCase | app/schemas/auth.py:21-25 | an email and its lower-cased form validate to the same result |
| Schemas.ValidateEmailIdempotent | app/schemas/auth.py:21-25 | a validated email validates to itself |
| Schemas.ValidatePasswordsMatch | app/schemas/auth.py:27-31 | the confirmation is refused exactly when the password is present and differs |
| Schemas.ValidateLogin | app/schemas/auth.py:5-13 | a login body is accepted exactly when the email has '@' and the password has at least 6 characters |
| Schemas.ValidateRegister | app/schemas/auth.py:15-31 | a registration body is accepted exactly when the name has 2 to 100 characters, the email has '@', the password has at least 6 characters and the confirmation equals it |
| Schemas.RegisteredCanLogIn | app/schemas/auth.py:5-31 | the email and password of an accepted registration body form an accepted login body |
| Schemas.SetUserType | app/schemas/auth.py:55-60 | the type is 'admin' exactly when is_admin holds, and 'usuario' otherwise, whatever was supplied |
| Schemas.ToUserResponse | app/schemas/auth.py:42-60 | an account renders exactly when it has a registration number; the id, registration number, name, email, creation and last-login times and admin flag are copied, and the type is derived from is_admin |
| Schemas.DefaultToken | app/schemas/auth.py:33-36 | a token defaults to type "bearer" and expires_in 3600 |
| CreateAdmin.TrailingDigitsAppend | create_admin.py:78 | appending digits extends the trailing digit run by exactly them |
| CreateAdmin.AdminNumberRoundTrip | create_admin.py:78-84 | a generated ADMIN number matches 'ADMIN%' and its trailing digits read back as its number |
| CreateAdmin.AdminMatriculaFresh | create_admin.py:81-84 | a number above every number found gives a registration number no account has |
| CreateAdmin.GenerateAdminMatricula | create_admin.py:69-84 | "ADMIN" + (1 + the largest trailing number of the matrículas matching 'ADMIN%'; 1 when none; empty or digitless ones ignored), padded to 3 digits, and fresh |
| CreateAdmin.Promote | create_admin.py:90-98 | promotion makes the account admin, fills the registration number only when it is empty, replaces the hash only for a given password, keeps the email |
| CreateAdmin.PromoteIdempotent | create_admin.py:90-98 | promoting twice with the same arguments equals promoting once |
| CreateAdmin.UpsertAdmin | create_admin.py:66-112 | the account with exactly that email is promoted; without one, a new admin account is inserted; account emails stay unique |
| Formatting.FindRun | app/static/js/main.js:8 | the leftmost position where eleven digits start, if any |
| Formatting.PunctuateCpfDigits | app/static/js/main.js:8 | the punctuated CPF has 14 characters and the same digits |
| Formatting.CpfKeepsDigits | app/static/js/main.js:6-9 | formatting a CPF keeps its digits, in order |
| Formatting.CpfOfElevenDigits | app/static/js/main.js:8 | eleven digits become ddd.ddd.ddd-dd |
| Formatting.CpfUnchangedWithoutRun | app/static/js/main.js:7-8 | input without a run of eleven digits is returned unchanged, otherwise it grows by 3 characters |
| Formatting.TelefoneKeepsDigits | app/static/js/main.js:16-32 | formatting a phone number keeps its digits |
| Formatting.TelefoneLength | app/static/js/main.js:17-32 | 11 digits give 15 characters, 10 give 14, empty input or any other count returns the input |
| Formatting.TelefoneIdempotent | app/static/js/main.js:16-32 | formatting a formatted phone number changes nothing |

## Left out

- Database plumbing: sessions, commits, refreshes and rollbacks are atomic updates of the tables. Concurrent requests, and a double booking by two simultaneous loans, are not modelled.
- JWT encoding and decoding and bcrypt hashing (app/core/auth.py) are library calls. The caller is an input record, and the password hash is a parameter. Login (`login_for_access_token`, `login_form`) depends only on these and is not modelled; nor are `read_users_me`, logout, or the HTML variant `register_form`, which calls `register_user`.
- Response enrichment and HTTP shapes are not modelled. In particular, for a caller without admin rights the loan response reads an unbound `usuario` (app/api/endpoints/emprestimos.py:197) after the commit. The model captures only the committed state.
- Emprestimos.Fechado: the fee is an integer in cents rather than a float, and `multa or 0.0` is modelled as "the override when given, else 0". A given 0 is the same either way.
- Pagination (`skip`/`limit`) is not modelled: every listing returns all matching rows.
- Usuarios.ReadUsers: both loops run over every row rather than a page of each table.
- ISBN 10/13 checks and other length bounds of book bodies are not modelled.
- Emprestimos.ResolverUsuario: the handlers' models do not enforce the NOT NULL constraints on profile CPF and registration number (`Store.NotNullHolds`). As written, the profile created for a caller without admin rights has no CPF, so its commit always fails, and such a caller can never borrow (see "## Findings"). The model lets the profile in, as the code evidently intends.
- The book handlers import `Livro`, `LivroCreate` and `LivroUpdate` from app/schemas/book.py, which defines only `Book`, `BookCreate` and `BookUpdate` (title, author_id, year, isbn, status). As written, that import fails. The book bodies of `Livros` are therefore reconstructed from the `livros` table's columns.
- `read_user`, `update_user` and `create_user` declare `response_model=User`. Its required `name`, `registration` and `is_active` are not attributes of a `usuarios` row, so serialising any successful answer fails with a server error. The model returns the profile row and captures the committed state.
- Text.ParseInt: Python's `int()` also accepts surrounding whitespace, underscores between digits and non-ASCII decimal digits. The model accepts only an optional sign and ASCII digits.
- CreateAdmin.AdminNumber: the regular expression's `\d` also matches non-ASCII decimal digits in Python. The model reads ASCII digits only.
- Case folding is ASCII only, and SQL `ilike` patterns are read as plain substrings, ignoring `%` and `_` inside the user's text.
- Auth.GenerateMatricula: freshness is proved for four-digit years only. For a shorter year, the suffix taken after the first four characters no longer lines up with the year.
- CreateAdmin.UpsertAdmin: the interactive prompts and their defaults are replaced by the values they return. The registration number given on the command line (empty for none) is used as it is, and the generated one is used otherwise. The script's exception handler is not modelled.
- `formatarData`, the counters animation and the DOM handlers in app/static/js/main.js depend on the browser and its clock.
- Authors (app/api/endpoints/authors.py), categories and the HTML views are plain CRUD or presentation without checked rules.
- Usuarios.UpdateUser: an update body cannot send the name or the email as null. The NOT NULL constraint would refuse such an update at commit. A CPF or registration number sent as null is modelled, and refused.
- CreateAdmin.UpsertAdmin: the script always has a password, because the prompt supplies a default when none is typed. The hash of a new account is therefore a parameter, not an optional value.

## Findings

| source | as written | input that shows it | evidently intended | confidence | as-written member | corrected member |
|---|---|---|---|---|---|---|
| app/api/endpoints/emprestimos.py:119-128 | the automatic profile has no `cpf`, which models.py:84 declares NOT NULL, so the commit raises IntegrityError | a caller without admin rights whose registration number no profile carries requests any loan | the profile is created and the loan proceeds | high, not executed | Emprestimos.AutoProfileRefusedAsWritten | Emprestimos.ResolverUsuario |
| app/api/endpoints/reservas.py:59-64 | the row is built with the keyword `data_validade`, which names no column, so the constructor raises TypeError after every check has passed | a request for a lent-out book by an existing profile with no pending reservation of it | a pending reservation valid for 7 days is stored, its validity in `data_expiracao` | high, not executed | Reservas.CreateReservaAsWritten | Reservas.CreateReserva |
| app/api/endpoints/usuarios.py:38-43 | the lookup reads `usuario.email`, which the request schema does not have, and `**usuario.dict()` passes `name`, `registration` and `course`, which are not columns | any body `{"name": "Ana", "registration": "2024001"}` | a profile with the body's fields is stored unless its email is taken | high, not executed | Usuarios.CreateUserFailsAsWritten | Usuarios.CreateUser |
| app/api/endpoints/usuarios.py:150-152 | `setattr` with the schema's `name`, `registration`, `course` and `is_active` sets plain attributes, so no column changes and the commit writes nothing | a body `{"name": "Ana"}` for the caller's own profile | the profile's columns take the values sent | high, not executed | Usuarios.UpdateUserWritesNothingAsWritten | Usuarios.UpdateThenRead |
| app/api/endpoints/editoras.py:70 | `DBEditora(**editora.dict())` passes `endereco`, `telefone`, `email` and `website`, always present even when None, and none is a column of `editoras`, so the constructor raises TypeError | an admin posts `{"nome": "Rocco"}` while no publisher has that name | the publisher is stored with the body's fields | high, not executed | Editoras.CriarEditoraAsWritten | Editoras.CriarEditora |
| app/api/endpoints/editoras.py:114-117 | `setattr` of `endereco`, `telefone`, `email` or `website` sets a plain attribute that the commit never writes | an admin puts `{"telefone": "(21) 2222-3333"}` to an existing publisher | the fields sent replace the stored ones | high, not executed | Editoras.UpdateWritesOnlyNameAsWritten | Editoras.AtualizarEditora |
