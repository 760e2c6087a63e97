/** The second-generation authentication service (app/services/auth_service.go): the
    same users and roles tables, but a hashing failure is reported, login ignores the
    active flag and requires a role, and it issues a short-lived access token and a
    long-lived refresh token. */
module AppAuth {
  import opened Wrappers
  import opened Entities
  import opened Hashing
  import opened Claims
  import opened UserTable
  import opened Store

  const EmailTaken: string := "email already registered"
  const InvalidCredentials: string := "invalid email or password"
  const RoleFetchFailed: string := "failed to fetch user role"

  const AccessLifetime: int := 15 * 60
  const RefreshLifetime: int := 7 * 24 * 3600

  /** HS256 signing of the second-generation claims under one of the two built-in keys. */
  type AppSigner = AppClaims -> Result<string>

  /** Login's triple: access token, refresh token, role name. */
  datatype AppTokens = AppTokens(access: string, refresh: string, role: string)

  /** The row Register inserts: a fresh id, active, created and updated now, no roles. */
  function NewAppUser(name: string, email: string, digest: string, id: string, now: int): (u: User)
    ensures u.id == id && u.name == name && u.email == email && u.passwordHash == digest
    ensures u.isActive && u.createdAt == now && u.updatedAt == now
    ensures u.resetToken.None? && u.resetExpires.None? && u.roles == []
  {
    User(id, name, email, digest, true, None, None, now, now, [])
  }

  /** A user's role as gorm's FindByUserID finds it: the roles table joined with the
      user's role links, first row in primary-key order; `held` are the user's links. */
  function UserRole(roles: seq<Role>, held: seq<Role>): (r: Option<Role>)
    ensures r.None? <==> forall i :: 0 <= i < |roles| ==> roles[i] !in held
    ensures r.Some? ==> r.value in roles && r.value in held
  {
    match Lookup.First(roles, (x: Role) => x in held)
    case None => None
    case Some(i) => Some(roles[i])
  }

  /** A user without role links has no role; one whose links all point into the roles
      table (the foreign key of user_roles) has one. */
  lemma UserRoleFoundIff(roles: seq<Role>, held: seq<Role>)
    requires forall k :: 0 <= k < |held| ==> held[k] in roles
    ensures UserRole(roles, held).Some? <==> held != []
  {
    if held != [] {
      var i :| 0 <= i < |roles| && roles[i] == held[0];
      assert roles[i] in held;
    }
  }

  /** Login: unknown email and wrong password give the same error; then the user's role is
      fetched from the roles table and a missing one is an error; then both tokens are
      signed. The active flag is never consulted. */
  function Login(users: seq<User>, roles: seq<Role>, email: string, password: string, hash: Hasher,
                 signAccess: AppSigner, signRefresh: AppSigner, now: int)
    : (r: Result<AppTokens>)
    ensures FindByEmail(users, email).None? ==> r == Err(InvalidCredentials)
    ensures FindByEmail(users, email).Some? ==>
              var u := FindByEmail(users, email).value;
              var role := UserRole(roles, u.roles);
              var access := signAccess(AppClaims(u.id, now + AccessLifetime, now));
              var refresh := signRefresh(AppClaims(u.id, now + RefreshLifetime, now));
              (!Matches(hash, u.passwordHash, password) ==> r == Err(InvalidCredentials))
              && (Matches(hash, u.passwordHash, password) && role.None? ==> r == Err(RoleFetchFailed))
              && (Matches(hash, u.passwordHash, password) && role.Some? ==>
                    (access.Err? ==> r == Err(access.error))
                    && (access.Ok? && refresh.Err? ==> r == Err(refresh.error))
                    && (access.Ok? && refresh.Ok? ==> r == Ok(AppTokens(access.value, refresh.value, role.value.name))))
  {
    match FindByEmail(users, email)
    case None => Err(InvalidCredentials)
    case Some(u) =>
      if !Matches(hash, u.passwordHash, password) then Err(InvalidCredentials)
      else
        match UserRole(roles, u.roles)
        case None => Err(RoleFetchFailed)
        case Some(role) =>
          match signAccess(AppClaims(u.id, now + AccessLifetime, now))
          case Err(e) => Err(e)
          case Ok(access) =>
            match signRefresh(AppClaims(u.id, now + RefreshLifetime, now))
            case Err(e) => Err(e)
            case Ok(refresh) => Ok(AppTokens(access, refresh, role.name))
  }

  /** Toggling any account's active flag leaves the email lookup's row otherwise intact. */
  lemma FindByEmailIgnoresActive(users: seq<User>, id: string, b: bool, email: string)
    requires UniqueIds(users) && UniqueEmails(users)
    ensures var after := FindByEmail(UpdateWhere(users, id, SetActive(b)), email);
            var before := FindByEmail(users, email);
            after.Some? == before.Some?
            && (after.Some? ==> after.value == before.value.(isActive := after.value.isActive))
  {
    var r := UpdateWhere(users, id, SetActive(b));
    UpdateKeepsEmails(users, id, SetActive(b));
    if HasEmail(users, email) {
      var i :| 0 <= i < |users| && users[i].email == email;
      FindByEmailUnique(users, i);
      FindByEmailUnique(r, i);
    }
  }

  /** Deactivation does not lock anyone out of this login: its answer is the same whether
      any account is active or not. */
  lemma LoginIgnoresActive(users: seq<User>, roles: seq<Role>, id: string, b: bool, email: string, password: string,
                           hash: Hasher, signAccess: AppSigner, signRefresh: AppSigner, now: int)
    requires UniqueIds(users) && UniqueEmails(users)
    ensures Login(UpdateWhere(users, id, SetActive(b)), roles, email, password, hash, signAccess, signRefresh, now)
            == Login(users, roles, email, password, hash, signAccess, signRefresh, now)
  {
    FindByEmailIgnoresActive(users, id, b, email);
  }

  /** A user without a role cannot log in, but is told so only once the password matched. */
  lemma RoleCheckedAfterPassword(users: seq<User>, roles: seq<Role>, email: string, password: string, hash: Hasher,
                                 signAccess: AppSigner, signRefresh: AppSigner, now: int)
    requires FindByEmail(users, email).Some? && FindByEmail(users, email).value.roles == []
    ensures Login(users, roles, email, password, hash, signAccess, signRefresh, now).Err?
    ensures Login(users, roles, email, password, hash, signAccess, signRefresh, now).error ==
              if Matches(hash, FindByEmail(users, email).value.passwordHash, password) then RoleFetchFailed
              else InvalidCredentials
  {
    assert UserRole(roles, []).None?;
  }

  class AppAuthService {
    const repo: Database

    constructor (repo: Database)
      ensures this.repo == repo
    {
      this.repo := repo;
    }

    /** Register: refuse a taken email, report a hashing failure, insert the account, then
        link STUDENT when that role exists, ignoring a failure to link it. */
    method Register(name: string, email: string, password: string, hash: Hasher, newId: string, now: int,
                    createFault: Option<string>, assignFault: Option<string>)
      returns (r: Result<User>)
      requires repo.Valid()
      modifies repo
      ensures repo.Valid() && repo.roles == old(repo.roles)
      ensures HasEmail(old(repo.users), email) ==> r == Err(EmailTaken) && repo.users == old(repo.users)
      ensures !HasEmail(old(repo.users), email) && hash(password).Err? ==>
                r == Err(hash(password).error) && repo.users == old(repo.users)
      ensures !HasEmail(old(repo.users), email) && hash(password).Ok? ==>
                var u := NewAppUser(name, email, hash(password).value, newId, now);
                (createFault.Some? ==> r == Err(createFault.value) && repo.users == old(repo.users))
                && (createFault.None? && HasId(old(repo.users), newId) ==>
                      r == Err(DuplicateKey) && repo.users == old(repo.users))
                && (createFault.None? && !HasId(old(repo.users), newId) ==>
                      r == Ok(u)
                      && repo.users == old(repo.users) + [u.(roles := StudentLink(repo.roles, assignFault))])
    {
      if FindByEmail(repo.users, email).Some? {
        return Err(EmailTaken);
      }
      var digest := hash(password);
      if digest.Err? {
        return Err(digest.error);
      }
      var user := NewAppUser(name, email, digest.value, newId, now);
      var err := repo.CreateUser(user, createFault);
      if err.Some? {
        return Err(err.value);
      }
      ghost var before := old(repo.users);
      var student := FindRoleByName(repo.roles, STUDENT);
      if student.Some? {
        AddRoleToAppended(before, user, student.value);
        assert user.roles + [student.value] == [student.value];
        assert repo.users[|before|] == user;
        var _ := repo.AssignUserRole(user.id, student.value, assignFault);
      }
      r := Ok(user);
    }
  }
}
