/** The HTTP layer over the authentication service (api/handlers/auth_handler.go):
    body and field validation before the service is consulted, and the mapping of the
    service's answer to a status code. A service is passed as the function it computes
    for the request's arguments; `None` for a body stands for a body that did not parse. */
module AuthHandlers {
  import opened Wrappers
  import opened Entities
  import opened Responses
  import Auth
  import Hashing
  import UserTable
  import Strings

  const UnauthorizedKind: string := "UnauthorizedException"
  const LogoutKind: string := "LogoutException"
  const TokenRequired: string := "Authorization token required"
  const EmailRequired: string := "Email is required"
  const TokenAndPasswordRequired: string := "Token and new password required"

  datatype ForgotPasswordRequest = ForgotPasswordRequest(email: string)
  datatype ResetPasswordRequest = ResetPasswordRequest(token: string, newPassword: string)

  /** Login's payload: the token, its expiry as RFC 3339 text, the scheme, and the user. */
  datatype LoginData = LoginData(token: string, expiresIn: string, tokenType: string,
                                 id: string, name: string, roles: seq<Role>, permissions: seq<string>)

  /** ForgotPassword's payload: the address and the reset token itself. */
  datatype ResetIssued = ResetIssued(email: string, token: string)

  /** Register: 400 for a bad body or any service error (its message passed on), else 201
      with the created user. */
  function Register(body: Option<Auth.RegisterRequest>, register: Auth.RegisterRequest -> Result<User>)
    : (r: Reply<User>)
    ensures body.None? ==> r == Failure(400, InvalidBody, BadRequestKind)
    ensures body.Some? && register(body.value).Err? ==>
              r == Failure(400, register(body.value).error, BadRequestKind)
    ensures body.Some? && register(body.value).Ok? ==>
              r == Success(201, "User registered successfully", register(body.value).value)
  {
    match body
    case None => Failure(400, InvalidBody, BadRequestKind)
    case Some(req) =>
      match register(req)
      case Err(e) => Failure(400, e, BadRequestKind)
      case Ok(u) => Success(201, "User registered successfully", u)
  }

  /** Login: 400 for a bad body, 401 with the service's own message for any login failure,
      else 200 with a "Bearer" token and its expiry formatted by `rfc3339`. */
  function Login(body: Option<Auth.LoginRequest>, loginCore: Auth.LoginRequest -> Result<Auth.Session>,
                 rfc3339: int -> string)
    : (r: Reply<LoginData>)
    ensures body.None? ==> r == Failure(400, InvalidBody, BadRequestKind)
    ensures body.Some? && loginCore(body.value).Err? ==>
              r == Failure(401, loginCore(body.value).error, UnauthorizedKind)
    ensures body.Some? && loginCore(body.value).Ok? ==>
              var s := loginCore(body.value).value;
              r == Success(200, "Login successful",
                           LoginData(s.token, rfc3339(s.expiresAt), "Bearer", s.user.id, s.user.name,
                                     s.user.roles, s.permissions))
  {
    match body
    case None => Failure(400, InvalidBody, BadRequestKind)
    case Some(req) =>
      match loginCore(req)
      case Err(e) => Failure(401, e, UnauthorizedKind)
      case Ok(s) =>
        Success(200, "Login successful",
                LoginData(s.token, rfc3339(s.expiresAt), "Bearer", s.user.id, s.user.name, s.user.roles, s.permissions))
  }

  /** Over the real LoginCore, an unknown email and a wrong password (of an active user)
      get the very same 401 answer. */
  lemma LoginFailuresLookAlike(users: seq<User>, req: Auth.LoginRequest, env: Auth.Env, now: int,
                               hash: Hashing.Hasher, sign: Auth.Signer, rfc3339: int -> string)
    requires UserTable.FindByEmail(users, req.email).None?
             || (UserTable.FindByEmail(users, req.email).value.isActive
                 && !Hashing.Matches(hash, UserTable.FindByEmail(users, req.email).value.passwordHash, req.password))
    ensures Login(Some(req), r => Auth.LoginCore(users, r, env, now, hash, sign), rfc3339)
            == Failure(401, Auth.InvalidCredentials, UnauthorizedKind)
  {
  }

  /** The token Logout hands on: the header without its "Bearer " prefix, but only when
      something follows the prefix. */
  function LogoutToken(header: string): (t: string)
    ensures |header| > 7 && header[..7] == "Bearer " ==> header == "Bearer " + t && |t| > 0
    ensures !(|header| > 7 && header[..7] == "Bearer ") ==> t == header
  {
    if |header| > 7 && header[..7] == "Bearer " then header[7..] else header
  }

  /** Unlike a plain prefix trim, a header that is exactly "Bearer " is handed on whole. */
  lemma BarePrefixKept()
    ensures LogoutToken("Bearer ") == "Bearer "
    ensures Strings.TrimPrefix("Bearer ", "Bearer ") == ""
  {
    assert Strings.HasPrefix("Bearer ", "Bearer ");
  }

  /** Logout: 400 for a missing header, 500 for a service error, else 200. */
  function Logout(header: string, logout: string -> Option<string>): (r: Reply<()>)
    ensures header == "" ==> r == Failure(400, TokenRequired, BadRequestKind)
    ensures header != "" && logout(LogoutToken(header)).Some? ==>
              r == Failure(500, logout(LogoutToken(header)).value, LogoutKind)
    ensures header != "" && logout(LogoutToken(header)).None? ==> r == Success(200, "Logout successful", ())
  {
    if header == "" then Failure(400, TokenRequired, BadRequestKind)
    else
      match logout(LogoutToken(header))
      case Some(e) => Failure(500, e, LogoutKind)
      case None => Success(200, "Logout successful", ())
  }

  /** Over the real service, which never fails, every non-empty header logs out. */
  lemma LogoutAlwaysSucceeds(header: string)
    ensures Logout(header, Auth.Logout).Success? <==> header != ""
  {
  }

  /** ForgotPassword: a bad body or an empty email is a 400 before the service runs; a
      service error is a 400 with its message; success shows the email and the token. */
  function ForgotPassword(body: Option<ForgotPasswordRequest>, generate: string -> Result<string>)
    : (r: Reply<ResetIssued>)
    ensures body.None? || body.value.email == "" ==> r == Failure(400, EmailRequired, BadRequestKind)
    ensures body.Some? && body.value.email != "" ==>
              var g := generate(body.value.email);
              (g.Err? ==> r == Failure(400, g.error, BadRequestKind))
              && (g.Ok? ==> r == Success(200, "Password reset token generated", ResetIssued(body.value.email, g.value)))
  {
    if body.None? || body.value.email == "" then Failure(400, EmailRequired, BadRequestKind)
    else
      match generate(body.value.email)
      case Err(e) => Failure(400, e, BadRequestKind)
      case Ok(t) => Success(200, "Password reset token generated", ResetIssued(body.value.email, t))
  }

  /** ResetPassword: a bad body, an empty token or an empty password is a 400 before the
      service runs; a service error is a 400 with its message; else 200. */
  function ResetPassword(body: Option<ResetPasswordRequest>, reset: (string, string) -> Option<string>)
    : (r: Reply<()>)
    ensures body.None? || body.value.token == "" || body.value.newPassword == "" ==>
              r == Failure(400, TokenAndPasswordRequired, BadRequestKind)
    ensures body.Some? && body.value.token != "" && body.value.newPassword != "" ==>
              var e := reset(body.value.token, body.value.newPassword);
              (e.Some? ==> r == Failure(400, e.value, BadRequestKind))
              && (e.None? ==> r == Success(200, "Password has been reset successfully", ()))
  {
    if body.None? || body.value.token == "" || body.value.newPassword == "" then
      Failure(400, TokenAndPasswordRequired, BadRequestKind)
    else
      match reset(body.value.token, body.value.newPassword)
      case Some(e) => Failure(400, e, BadRequestKind)
      case None => Success(200, "Password has been reset successfully", ())
  }

  /** Validation comes first: on an incomplete request the answer is the same whatever the
      service would have done, so the service's outcome (and any effect) plays no part. */
  lemma ValidationPrecedesService(fb: Option<ForgotPasswordRequest>, g1: string -> Result<string>,
                                  g2: string -> Result<string>, rb: Option<ResetPasswordRequest>,
                                  s1: (string, string) -> Option<string>, s2: (string, string) -> Option<string>)
    ensures fb.None? || fb.value.email == "" ==> ForgotPassword(fb, g1) == ForgotPassword(fb, g2)
    ensures rb.None? || rb.value.token == "" || rb.value.newPassword == "" ==>
              ResetPassword(rb, s1) == ResetPassword(rb, s2)
  {
  }
}
