/** The request and response schemas of the authentication API
    (app/schemas/auth.py): field bounds and validators as the schema
    library applies them. A body the schema refuses is `Err(Invalid)`. */
module Schemas {
  import opened Common
  import opened Text
  import opened Models

  /** `validate_email`: a value without '@' is refused; any other is
      lower-cased. */
  function ValidateEmail(v: string): (r: Result<string>)
    ensures r.Ok? <==> '@' in v
    ensures r.Ok? ==> r.value == Lower(v) && '@' in r.value
    ensures r.Err? ==> r.error == Invalid
  {
    LowerKeeps(v, '@');
    if '@' !in v then Err(Invalid) else Ok(Lower(v))
  }

  /** The validator ignores case: an email and its lower-cased form are
      accepted or refused together, with the same result. */
  lemma ValidateEmailIgnoresCase(v: string)
    ensures ValidateEmail(Lower(v)) == ValidateEmail(v)
  {
    LowerKeeps(v, '@');
    LowerIdempotent(v);
  }

  /** An accepted email validates to itself. */
  lemma ValidateEmailIdempotent(v: string)
    requires ValidateEmail(v).Ok?
    ensures ValidateEmail(ValidateEmail(v).value) == ValidateEmail(v)
  {
    ValidateEmailIgnoresCase(v);
  }

  /** `validate_passwords_match`: `confirmar` is refused when the password
      passed its own checks (`senha` is present) and differs from it. */
  function ValidatePasswordsMatch(confirmar: string, senha: Option<string>): (r: Result<string>)
    ensures r.Err? <==> senha.Some? && confirmar != senha.value
    ensures r.Ok? ==> r.value == confirmar
    ensures r.Err? ==> r.error == Invalid
  {
    if senha.Some? && confirmar != senha.value then Err(Invalid) else Ok(confirmar)
  }

  datatype LoginRequest = LoginRequest(email: string, senha: string)

  /** `LoginRequest`: an email with '@' (kept lower-cased) and a password
      of at least 6 characters. */
  function ValidateLogin(email: string, senha: string): (r: Result<LoginRequest>)
    ensures r.Ok? <==> '@' in email && |senha| >= 6
    ensures r.Ok? ==> r.value == LoginRequest(Lower(email), senha)
    ensures r.Err? ==> r.error == Invalid
  {
    var e := ValidateEmail(email);
    if e.Ok? && |senha| >= 6 then Ok(LoginRequest(e.value, senha)) else Err(Invalid)
  }

  datatype RegisterRequest = RegisterRequest(nome: string, email: string, senha: string, confirmarSenha: string)

  /** `RegisterRequest`, field by field in declaration order: a name of 2 to
      100 characters, an email with '@', a password of at least 6
      characters, and a confirmation of at least 6 characters that the
      match validator compares with the password when the password itself
      was accepted. Together: the body is accepted exactly when the name
      fits, the email has '@', the password has 6 characters or more and
      the confirmation equals it. */
  function ValidateRegister(nome: string, email: string, senha: string, confirmarSenha: string): (r: Result<RegisterRequest>)
    ensures r.Ok? <==> 2 <= |nome| <= 100 && '@' in email && |senha| >= 6 && confirmarSenha == senha
    ensures r.Ok? ==> r.value == RegisterRequest(nome, Lower(email), senha, senha)
    ensures r.Err? ==> r.error == Invalid
  {
    var nomeOk := 2 <= |nome| <= 100;
    var e := ValidateEmail(email);
    var senhaOk := |senha| >= 6;
    var confirmarOk := |confirmarSenha| >= 6 && ValidatePasswordsMatch(confirmarSenha, if senhaOk then Some(senha) else None).Ok?;
    if nomeOk && e.Ok? && senhaOk && confirmarOk then Ok(RegisterRequest(nome, e.value, senha, confirmarSenha))
    else Err(Invalid)
  }

  /** The email and password of an accepted registration body make an
      accepted login body. */
  lemma RegisteredCanLogIn(nome: string, email: string, senha: string, confirmarSenha: string)
    requires ValidateRegister(nome, email, senha, confirmarSenha).Ok?
    ensures var req := ValidateRegister(nome, email, senha, confirmarSenha).value;
      ValidateLogin(req.email, req.senha) == Ok(LoginRequest(req.email, req.senha))
  {
    ValidateEmailIgnoresCase(email);
  }

  /** `set_user_type`: the type is 'admin' exactly when the account is an
      administrator and 'usuario' otherwise, whatever value was supplied. */
  function SetUserType(isAdmin: bool, supplied: Option<string>): (r: string)
    ensures r == "admin" <==> isAdmin
    ensures r == "usuario" <==> !isAdmin
  {
    if isAdmin then "admin" else "usuario"
  }

  datatype UserResponse = UserResponse(
    id: int,
    matricula: string,
    nome: string,
    email: string,
    criadoEm: int,
    ultimoLogin: Option<int>,
    isAdmin: bool,
    tipo: string)

  /** `UserResponse` built from an account row: the registration number is
      required, so an account without one is refused; the type is derived
      from the administrator flag. */
  function ToUserResponse(id: int, a: UsuarioAuth): (r: Result<UserResponse>)
    ensures r.Ok? <==> a.matricula.Some?
    ensures r.Ok? ==> r.value.tipo == (if a.isAdmin then "admin" else "usuario")
    ensures r.Ok? ==> r.value.id == id && r.value.email == a.email && r.value.isAdmin == a.isAdmin
    ensures r.Ok? ==> r.value.matricula == a.matricula.value && r.value.nome == a.nome
    ensures r.Ok? ==> r.value.criadoEm == a.criadoEm && r.value.ultimoLogin == a.ultimoLogin
  {
    if a.matricula.None? then Err(Invalid)
    else Ok(UserResponse(id, a.matricula.value, a.nome, a.email, a.criadoEm, a.ultimoLogin, a.isAdmin,
                         SetUserType(a.isAdmin, None)))
  }

  datatype Token = Token(accessToken: string, tokenType: string, expiresIn: int)

  /** A token with the schema's defaults: a bearer token valid for one
      hour. */
  function DefaultToken(accessToken: string): (t: Token)
    ensures t.accessToken == accessToken && t.tokenType == "bearer" && t.expiresIn == 3600
  {
    Token(accessToken, "bearer", 3600)
  }
}
