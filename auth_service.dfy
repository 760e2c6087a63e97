/** The first-generation authentication service (pkg/auth/service.go): registration,
    password login issuing a signed token, logout, and the e-mailed reset-token flow. */
module Auth {
  import opened Wrappers
  import opened Entities
  import opened Hashing
  import opened Claims
  import opened Permission
  import opened UserTable
  import opened Store

  const EmailTaken: string := "email already registered"
  const InvalidCredentials: string := "invalid email or password"
  const Deactivated: string := "account is deactivated, please contact admin"
  const SecretMissing: string := "JWT_SECRET not set in environment"
  const EmailNotFound: string := "email not found"
  const InvalidOrExpired: string := "invalid or expired token"

  /** Go's zero `time.Time` (January 1 of year 1, UTC) in Unix seconds. */
  const ZeroTime: int := -62135596800

  const Hour: int := 3600
  const DefaultTokenLifetime: int := 24 * Hour
  const ResetTokenLifetime: int := Hour

  datatype RegisterRequest = RegisterRequest(name: string, email: string, password: string)
  datatype LoginRequest = LoginRequest(email: string, password: string)

  /** JWT_SECRET (empty when unset) and JWT_EXPIRE_HOURS, when set to a whole number of hours. */
  datatype Env = Env(jwtSecret: string, expireHours: Option<int>)

  /** HS256 signing of a claim set under a secret; it may fail with a message. */
  type Signer = (ClaimSet, string) -> Result<string>

  /** What a successful LoginCore returns besides the nil error. */
  datatype Session = Session(user: User, token: string, expiresAt: int, permissions: seq<string>)

  /** Login's triple: on failure the token is empty and the expiry is the zero time. */
  datatype Issued = Issued(token: string, expiresAt: int, err: Option<string>)

  /** The reset e-mail handed to the mail server. */
  datatype ResetMail = ResetMail(to: string, token: string)

  // ----------------------------------------------------------- registration

  /** The digest Register stores: the hash, or the empty string when hashing failed
      (the error is discarded and the nil byte slice converts to ""). */
  function StoredHash(hash: Hasher, password: string): (h: string)
    ensures hash(password).Ok? ==> h == hash(password).value
    ensures hash(password).Err? ==> h == ""
  {
    match hash(password)
    case Ok(d) => d
    case Err(_) => ""
  }

  /** The row Register inserts: active, no reset token, no roles yet. */
  function NewUser(req: RegisterRequest, hash: Hasher, id: string, now: int): (u: User)
    ensures u.id == id && u.name == req.name && u.email == req.email && u.isActive
    ensures u.passwordHash == StoredHash(hash, req.password)
    ensures u.resetToken.None? && u.resetExpires.None? && u.roles == []
    ensures u.createdAt == now && u.updatedAt == now
  {
    User(id, req.name, req.email, StoredHash(hash, req.password), true, None, None, now, now, [])
  }

  // ------------------------------------------------------------------ login

  /** The lifetime of a login token: 24 hours, or JWT_EXPIRE_HOURS hours. */
  function TokenLifetime(env: Env): (seconds: int)
    ensures env.expireHours.None? ==> seconds == DefaultTokenLifetime
    ensures env.expireHours.Some? ==> seconds == env.expireHours.value * Hour
  {
    match env.expireHours
    case None => DefaultTokenLifetime
    case Some(h) => h * Hour
  }

  /** The `roles` claim: the name of the first assigned role, or "" for a user without roles. */
  function PrimaryRole(roles: seq<Role>): (name: string)
    ensures roles == [] ==> name == ""
    ensures roles != [] ==> name == roles[0].name
  {
    if |roles| > 0 then roles[0].name else ""
  }

  /** The claims signed for a user at `now` with expiry `exp`. */
  function TokenClaims(u: User, exp: int, now: int): (c: LoginClaims)
    ensures c.userId == u.id && c.email == u.email && c.exp == exp && c.iat == now
    ensures c.roles == PrimaryRole(u.roles)
  {
    LoginClaims(u.id, u.email, exp, now, PrimaryRole(u.roles))
  }

  /** LoginCore: look the account up by email, refuse a deactivated one, then check the
      password, then sign a token. Unknown email and wrong password give the same error. */
  function LoginCore(users: seq<User>, req: LoginRequest, env: Env, now: int, hash: Hasher, sign: Signer)
    : (r: Result<Session>)
    ensures FindByEmail(users, req.email).None? ==> r == Err(InvalidCredentials)
    ensures FindByEmail(users, req.email).Some? ==>
              var u := FindByEmail(users, req.email).value;
              var exp := now + TokenLifetime(env);
              var signed := sign(LoginClaimsJson(TokenClaims(u, exp, now)), env.jwtSecret);
              (!u.isActive ==> r == Err(Deactivated))
              && (u.isActive && !Matches(hash, u.passwordHash, req.password) ==> r == Err(InvalidCredentials))
              && (u.isActive && Matches(hash, u.passwordHash, req.password) && env.jwtSecret == "" ==>
                    r == Err(SecretMissing))
              && (u.isActive && Matches(hash, u.passwordHash, req.password) && env.jwtSecret != "" ==>
                    if signed.Err? then r == Err("failed to generate token: " + signed.error)
                    else r == Ok(Session(u, signed.value, exp, GetPermissionsByRole(PrimaryRole(u.roles)))))
  {
    match FindByEmail(users, req.email)
    case None => Err(InvalidCredentials)
    case Some(u) =>
      if !u.isActive then Err(Deactivated)
      else if !Matches(hash, u.passwordHash, req.password) then Err(InvalidCredentials)
      else if env.jwtSecret == "" then Err(SecretMissing)
      else
        var exp := now + TokenLifetime(env);
        var roleName := PrimaryRole(u.roles);
        match sign(LoginClaimsJson(TokenClaims(u, exp, now)), env.jwtSecret)
        case Err(e) => Err("failed to generate token: " + e)
        case Ok(t) => Ok(Session(u, t, exp, GetPermissionsByRole(roleName)))
  }

  /** Login: LoginCore's token and expiry, with the Go zero values on failure. */
  function Login(users: seq<User>, req: LoginRequest, env: Env, now: int, hash: Hasher, sign: Signer)
    : (r: Issued)
    ensures var core := LoginCore(users, req, env, now, hash, sign);
            (r.err.None? <==> core.Ok?)
            && (core.Ok? ==> r.token == core.value.token && r.expiresAt == core.value.expiresAt)
            && (core.Err? ==> r == Issued("", ZeroTime, Some(core.error)))
  {
    match LoginCore(users, req, env, now, hash, sign)
    case Ok(s) => Issued(s.token, s.expiresAt, None)
    case Err(e) => Issued("", ZeroTime, Some(e))
  }

  /** Logout revokes nothing; tokens stay valid until they expire. */
  function Logout(token: string): (err: Option<string>)
    ensures err.None?
  {
    None
  }

  /** A caller cannot tell an unknown email from a wrong password. */
  lemma NoAccountProbing(users: seq<User>, known: LoginRequest, unknown: LoginRequest,
                         env: Env, now: int, hash: Hasher, sign: Signer)
    requires FindByEmail(users, unknown.email).None?
    requires FindByEmail(users, known.email).Some? && FindByEmail(users, known.email).value.isActive
    requires !Matches(hash, FindByEmail(users, known.email).value.passwordHash, known.password)
    ensures Login(users, known, env, now, hash, sign) == Login(users, unknown, env, now, hash, sign)
    ensures Login(users, known, env, now, hash, sign) == Issued("", ZeroTime, Some(InvalidCredentials))
  {
  }

  /** A deactivated account is refused whatever password is offered, right or wrong. */
  lemma DeactivatedRefusedFirst(users: seq<User>, req: LoginRequest, env: Env, now: int, hash: Hasher, sign: Signer)
    requires FindByEmail(users, req.email).Some? && !FindByEmail(users, req.email).value.isActive
    ensures LoginCore(users, req, env, now, hash, sign) == Err(Deactivated)
  {
  }

  /** Every session is for an active account whose password matched, under a set secret,
      and it expires exactly one token lifetime after it was issued. */
  lemma SessionSound(users: seq<User>, req: LoginRequest, env: Env, now: int, hash: Hasher, sign: Signer)
    requires LoginCore(users, req, env, now, hash, sign).Ok?
    ensures var s := LoginCore(users, req, env, now, hash, sign).value;
            s.user in users && s.user.email == req.email && s.user.isActive
            && Matches(hash, s.user.passwordHash, req.password)
            && env.jwtSecret != ""
            && s.expiresAt - now == TokenLifetime(env)
            && s.permissions == GetPermissionsByRole(PrimaryRole(s.user.roles))
  {
  }

  /** A freshly registered account whose password hashed can log in with that password, and
      its token carries the STUDENT role exactly when the role was linked. */
  lemma {:induction false} RegisterThenLogin(users: seq<User>, req: RegisterRequest, hash: Hasher, id: string,
                                             link: seq<Role>, env: Env, now: int, later: int, sign: Signer)
    requires UniqueEmails(users) && !HasEmail(users, req.email)
    requires hash(req.password).Ok?
    requires link == [] || (|link| == 1 && link[0].name == STUDENT)
    requires env.jwtSecret != ""
    ensures var after := users + [NewUser(req, hash, id, now).(roles := link)];
            var core := LoginCore(after, LoginRequest(req.email, req.password), env, later, hash, sign);
            var claims := LoginClaimsJson(TokenClaims(after[|users|], later + TokenLifetime(env), later));
            (core.Ok? <==> sign(claims, env.jwtSecret).Ok?)
            && claims["roles"] == JStr(if link == [] then "" else STUDENT)
  {
    var u := NewUser(req, hash, id, now).(roles := link);
    var after := users + [u];
    FindAppended(users, u);
    assert after[|users|] == u;
    LoginCoreAdmits(after, LoginRequest(req.email, req.password), env, later, hash, sign, u);
  }

  /** An active account whose password matches gets a session exactly when signing works. */
  lemma LoginCoreAdmits(users: seq<User>, req: LoginRequest, env: Env, now: int, hash: Hasher, sign: Signer, u: User)
    requires FindByEmail(users, req.email) == Some(u)
    requires u.isActive && Matches(hash, u.passwordHash, req.password) && env.jwtSecret != ""
    ensures LoginCore(users, req, env, now, hash, sign).Ok? <==>
              sign(LoginClaimsJson(TokenClaims(u, now + TokenLifetime(env), now)), env.jwtSecret).Ok?
  {
  }

  /** When the hash never produces an empty digest, an account registered while hashing
      failed can never log in: no password matches the stored "". */
  lemma HashFailureLocksOut(req: RegisterRequest, hash: Hasher, id: string, now: int, password: string)
    requires hash(req.password).Err?
    requires forall p :: hash(p) != Ok("")
    ensures !Matches(hash, NewUser(req, hash, id, now).passwordHash, password)
  {
    assert hash(password) != Ok("");
  }

  /** With no override the token lives 24 hours; an override of h hours lives h hours. */
  lemma LifetimeInHours(env: Env)
    ensures TokenLifetime(env) == (if env.expireHours.None? then 24 else env.expireHours.value) * 3600
  {
  }

  // --------------------------------------------------------------- service

  class AuthService {
    const repo: Database
    /** Reset e-mails the mail server accepted, in order. */
    var outbox: seq<ResetMail>

    constructor (repo: Database)
      ensures this.repo == repo && outbox == []
    {
      this.repo := repo;
      outbox := [];
    }

    /** Register: refuse a taken email; insert an active account with the password's
        digest (or "" when hashing failed); then link STUDENT if it exists, ignoring any
        failure to do so. The returned user carries no roles. */
    method Register(req: RegisterRequest, hash: Hasher, newId: string, now: int,
                    createFault: Option<string>, assignFault: Option<string>)
      returns (r: Result<User>)
      requires repo.Valid()
      modifies repo
      ensures repo.Valid() && repo.roles == old(repo.roles)
      ensures HasEmail(old(repo.users), req.email) ==>
                r == Err(EmailTaken) && repo.users == old(repo.users)
      ensures !HasEmail(old(repo.users), req.email) && createFault.Some? ==>
                r == Err(createFault.value) && repo.users == old(repo.users)
      ensures !HasEmail(old(repo.users), req.email) && createFault.None? && HasId(old(repo.users), newId) ==>
                r == Err(DuplicateKey) && repo.users == old(repo.users)
      ensures !HasEmail(old(repo.users), req.email) && createFault.None? && !HasId(old(repo.users), newId) ==>
                r == Ok(NewUser(req, hash, newId, now))
                && repo.users == old(repo.users) + [NewUser(req, hash, newId, now).(roles := StudentLink(repo.roles, assignFault))]
    {
      if FindByEmail(repo.users, req.email).Some? {
        return Err(EmailTaken);
      }
      var user := NewUser(req, hash, newId, now);
      var err := repo.CreateUser(user, createFault);
      if err.Some? {
        return Err(err.value);
      }
      ghost var before := old(repo.users);
      var student := FindRoleByName(repo.roles, STUDENT);
      if student.Some? {
        AddRoleToAppended(before, user, student.value);
        assert user.roles + [student.value] == [student.value];
        assert HasId(repo.users, newId) by {
          assert repo.users[|before|].id == newId;
        }
        var _ := repo.AssignUserRole(user.id, student.value, assignFault);
      }
      r := Ok(user);
    }

    /** GenerateResetToken: for a registered email, store a fresh token valid for one
        hour (replacing any earlier one), then e-mail it. A failed save sends nothing;
        a failed send leaves the token stored. */
    method GenerateResetToken(email: string, now: int, token: string,
                              saveFault: Option<string>, mailFault: Option<string>)
      returns (r: Result<string>)
      requires repo.Valid()
      modifies this, repo
      ensures repo.Valid() && repo.roles == old(repo.roles)
      ensures !HasEmail(old(repo.users), email) ==>
                r == Err(EmailNotFound) && repo.users == old(repo.users) && outbox == old(outbox)
      ensures HasEmail(old(repo.users), email) && saveFault.Some? ==>
                r == Err("failed to save reset token: " + saveFault.value)
                && repo.users == old(repo.users) && outbox == old(outbox)
      ensures HasEmail(old(repo.users), email) && saveFault.None? ==>
                var u := FindByEmail(old(repo.users), email).value;
                repo.users == UpdateWhere(old(repo.users), u.id, SetResetToken(token, now + ResetTokenLifetime))
                && FindByEmail(repo.users, email).value.resetToken == Some(token)
                && FindByEmail(repo.users, email).value.resetExpires == Some(now + ResetTokenLifetime)
                && (mailFault.Some? ==> r == Err("failed to send reset email: " + mailFault.value) && outbox == old(outbox))
                && (mailFault.None? ==> r == Ok(token) && outbox == old(outbox) + [ResetMail(email, token)])
    {
      var found := FindByEmail(repo.users, email);
      if found.None? {
        return Err(EmailNotFound);
      }
      var user := found.value;
      var expiresAt := now + ResetTokenLifetime;
      FindByEmailAfterUpdate(repo.users, email, SetResetToken(token, expiresAt));
      var err := repo.SaveResetToken(user.id, token, expiresAt, saveFault);
      if err.Some? {
        return Err("failed to save reset token: " + err.value);
      }
      if mailFault.Some? {
        return Err("failed to send reset email: " + mailFault.value);
      }
      outbox := outbox + [ResetMail(user.email, token)];
      r := Ok(token);
    }

    /** ResetPassword: redeem a live token by storing the new digest and then clearing
        the token. A failure to clear is reported although the password has changed. */
    method ResetPassword(token: string, newPassword: string, now: int, hash: Hasher,
                         updateFault: Option<string>, clearFault: Option<string>)
      returns (err: Option<string>)
      requires repo.Valid()
      modifies repo
      ensures repo.Valid() && repo.roles == old(repo.roles)
      ensures FindByResetToken(old(repo.users), token, now).Err? ==>
                err == Some(InvalidOrExpired) && repo.users == old(repo.users)
      ensures FindByResetToken(old(repo.users), token, now).Ok? ==>
                var u := FindByResetToken(old(repo.users), token, now).value;
                var digest := hash(newPassword);
                (digest.Err? ==> err == Some("failed to hash password: " + digest.error) && repo.users == old(repo.users))
                && (digest.Ok? ==>
                      var changed := UpdateWhere(old(repo.users), u.id, SetPasswordHash(digest.value));
                      (updateFault.Some? ==>
                         err == Some("failed to update password: " + updateFault.value) && repo.users == old(repo.users))
                      && (updateFault.None? && clearFault.Some? ==>
                            err == Some("failed to clear reset token: " + clearFault.value) && repo.users == changed)
                      && (updateFault.None? && clearFault.None? ==>
                            err == None && repo.users == UpdateWhere(changed, u.id, Patch.ClearResetToken)
                            && FindById(repo.users, u.id).value.passwordHash == digest.value))
      ensures err.None? && SoleHolder(old(repo.users), token) ==>
                forall later :: FindByResetToken(repo.users, token, later) == Err(RecordNotFound)
    {
      var found := FindByResetToken(repo.users, token, now);
      if found.Err? {
        return Some(InvalidOrExpired);
      }
      var user := found.value;
      var digest := hash(newPassword);
      if digest.Err? {
        return Some("failed to hash password: " + digest.error);
      }
      ghost var before := repo.users;
      var e := repo.UpdatePassword(user.id, digest.value, updateFault);
      if e.Some? {
        return Some("failed to update password: " + e.value);
      }
      e := repo.ClearResetToken(user.id, clearFault);
      if e.Some? {
        return Some("failed to clear reset token: " + e.value);
      }
      ResetOutcome(before, token, now, digest.value);
      err := None;
    }
  }
}
