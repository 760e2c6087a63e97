/** The HTTP layer over user administration (api/handlers/user_handler.go): clamping of
    the paging query, parsing of the path id before the service is consulted, the mapping
    of errors to status codes, and the response records built from users. Services are
    passed as the functions they compute; `parseUuid` is uuid.Parse, giving the id in
    canonical form or None. */
module UserHandlers {
  import opened Wrappers
  import opened Entities
  import opened Claims
  import opened Responses
  import opened UserTable

  const InvalidIdFormat: string := "Invalid user ID format"
  const InvalidUuidKind: string := "InvalidUUID"
  const NotFoundMessage: string := "User not found"
  const RoleRequired: string := "Role is required"
  const UnauthorizedMessage: string := "Unauthorized"

  datatype UserResponse = UserResponse(id: string, name: string, email: string, isActive: bool)
  datatype UserRoleResponse = UserRoleResponse(id: string, name: string, email: string, role: string)
  datatype UserProfileResponse =
    UserProfileResponse(id: string, name: string, email: string, isActive: bool, roles: seq<string>)
  datatype Meta = Meta(page: int, perPage: int, total: int)
  datatype PaginatedUsers = PaginatedUsers(data: seq<UserResponse>, meta: Meta)

  function ToResponse(u: User): (d: UserResponse)
    ensures d.id == u.id && d.name == u.name && d.email == u.email && d.isActive == u.isActive
  {
    UserResponse(u.id, u.name, u.email, u.isActive)
  }

  /** fiber's QueryInt: `q` is the integer the query text spells (None when absent or not
      a number); strconv.Atoi refuses one outside Go's `int`, and then the default is used. */
  function QueryInt(q: Option<int>, default: int): (v: int)
    ensures q.Some? && IsInt64(q.value) ==> v == q.value
    ensures q.None? || !IsInt64(q.value) ==> v == default
    ensures IsInt64(default) ==> IsInt64(v)
  {
    if q.Some? && IsInt64(q.value) then q.value else default
  }

  /** A page below 1 is read as 1. */
  function ClampPage(page: int): (p: int)
    ensures p >= 1
    ensures page >= 1 ==> p == page
    ensures page < 1 ==> p == 1
  {
    if page < 1 then 1 else page
  }

  /** A page size below 1 is read as 10. */
  function ClampPerPage(perPage: int): (p: int)
    ensures p >= 1
    ensures perPage >= 1 ==> p == perPage
    ensures perPage < 1 ==> p == 10
  {
    if perPage < 1 then 10 else perPage
  }

  /** Clamping is idempotent and a missing query gives the first page of ten. */
  lemma ClampIdempotent(page: int, perPage: int)
    ensures ClampPage(ClampPage(page)) == ClampPage(page)
    ensures ClampPerPage(ClampPerPage(perPage)) == ClampPerPage(perPage)
    ensures ClampPage(QueryInt(None, 1)) == 1 && ClampPerPage(QueryInt(None, 10)) == 10
  {
  }

  /** GetAllUsers: clamp the query, fetch the page, and copy each user into a response
      record, in order; the meta echoes the clamped values and the service's total. */
  method GetAllUsers(pageQuery: Option<int>, perPageQuery: Option<int>, fetch: (int, int) -> Result<PageResult>)
    returns (r: Reply<PaginatedUsers>)
    ensures var page := ClampPage(QueryInt(pageQuery, 1));
            var perPage := ClampPerPage(QueryInt(perPageQuery, 10));
            var f := fetch(page, perPage);
            (f.Err? ==> r == Failure(500, f.error, "InternalServerError"))
            && (f.Ok? ==>
                  r.Success? && r.status == 200 && r.message == "Get all users successfully"
                  && r.data.meta == Meta(page, perPage, f.value.total)
                  && |r.data.data| == |f.value.items|
                  && forall i :: 0 <= i < |f.value.items| ==> r.data.data[i] == ToResponse(f.value.items[i]))
  {
    var page := QueryInt(pageQuery, 1);
    var perPage := QueryInt(perPageQuery, 10);
    if page < 1 {
      page := 1;
    }
    if perPage < 1 {
      perPage := 10;
    }
    var fetched := fetch(page, perPage);
    if fetched.Err? {
      return Failure(500, fetched.error, "InternalServerError");
    }
    var users := fetched.value.items;
    var dtos: seq<UserResponse> := [];
    var k := 0;
    while k < |users|
      invariant 0 <= k <= |users|
      invariant |dtos| == k
      invariant forall i :: 0 <= i < k ==> dtos[i] == ToResponse(users[i])
    {
      dtos := dtos + [ToResponse(users[k])];
      k := k + 1;
    }
    r := Success(200, "Get all users successfully", PaginatedUsers(dtos, Meta(page, perPage, fetched.value.total)));
  }

  /** Over the user table, the page the handler asks for reports every user in its total
      and holds at most perPage users; while its offset (page-1)*perPage does not wrap, they
      are the users from that offset on, and a page past the end is empty. */
  lemma PageOfTable(users: seq<User>, pageQuery: Option<int>, perPageQuery: Option<int>)
    ensures var p := ClampPage(QueryInt(pageQuery, 1));
            var pp := ClampPerPage(QueryInt(perPageQuery, 10));
            var res := GetAll(users, p, pp);
            IsInt64(p) && IsInt64(pp)
            && res.total == |users|
            && |res.items| <= pp
            && ((p - 1) * pp <= MaxInt64 ==>
                  var off := (p - 1) * pp;
                  (off >= |users| ==> res.items == [])
                  && forall i :: 0 <= i < |res.items| ==> ToResponse(res.items[i]) == ToResponse(users[off + i]))
  {
  }

  /** GetUserByID: 400 for a malformed id, 404 for any service error, else the user. */
  function GetUserById(rawId: string, parseUuid: string -> Option<string>, getUser: string -> Result<User>)
    : (r: Reply<UserResponse>)
    ensures parseUuid(rawId).None? ==> r == Failure(400, InvalidIdFormat, InvalidUuidKind)
    ensures parseUuid(rawId).Some? && getUser(parseUuid(rawId).value).Err? ==>
              r == Failure(404, NotFoundMessage, "UserNotFound")
    ensures parseUuid(rawId).Some? && getUser(parseUuid(rawId).value).Ok? ==>
              r == Success(200, "Get user by ID successfully", ToResponse(getUser(parseUuid(rawId).value).value))
  {
    match parseUuid(rawId)
    case None => Failure(400, InvalidIdFormat, InvalidUuidKind)
    case Some(id) =>
      match getUser(id)
      case Err(_) => Failure(404, NotFoundMessage, "UserNotFound")
      case Ok(u) => Success(200, "Get user by ID successfully", ToResponse(u))
  }

  /** SetUserRole: a bad body, then an empty role, then a malformed id, each a 400, in
      that order; a service error is a 400 with its message; the answer echoes the
      requested role, not the one stored. */
  function SetUserRole(body: Option<string>, rawId: string, parseUuid: string -> Option<string>,
                       setRole: (string, string) -> Result<User>)
    : (r: Reply<UserRoleResponse>)
    ensures body.None? ==> r == Failure(400, InvalidBody, BadRequestKind)
    ensures body == Some("") ==> r == Failure(400, RoleRequired, BadRequestKind)
    ensures body.Some? && body.value != "" && parseUuid(rawId).None? ==>
              r == Failure(400, InvalidIdFormat, InvalidUuidKind)
    ensures body.Some? && body.value != "" && parseUuid(rawId).Some? ==>
              var s := setRole(parseUuid(rawId).value, body.value);
              (s.Err? ==> r == Failure(400, s.error, "SetRoleException"))
              && (s.Ok? ==> r == Success(200, "User role assigned successfully",
                                         UserRoleResponse(s.value.id, s.value.name, s.value.email, body.value)))
  {
    match body
    case None => Failure(400, InvalidBody, BadRequestKind)
    case Some(role) =>
      if role == "" then Failure(400, RoleRequired, BadRequestKind)
      else
        match parseUuid(rawId)
        case None => Failure(400, InvalidIdFormat, InvalidUuidKind)
        case Some(id) =>
          match setRole(id, role)
          case Err(e) => Failure(400, e, "SetRoleException")
          case Ok(u) => Success(200, "User role assigned successfully", UserRoleResponse(u.id, u.name, u.email, role))
  }

  /** The shared shape of DeactivateUser and ActivateUser: 400 for a malformed id, 400 with
      the service's message and `kind` for its error, else the user's status record. */
  function SetStatus(rawId: string, parseUuid: string -> Option<string>, service: string -> Result<User>,
                     kind: string, done: string)
    : (r: Reply<UserResponse>)
    ensures parseUuid(rawId).None? ==> r == Failure(400, InvalidIdFormat, InvalidUuidKind)
    ensures parseUuid(rawId).Some? && service(parseUuid(rawId).value).Err? ==>
              r == Failure(400, service(parseUuid(rawId).value).error, kind)
    ensures parseUuid(rawId).Some? && service(parseUuid(rawId).value).Ok? ==>
              r == Success(200, done, ToResponse(service(parseUuid(rawId).value).value))
  {
    match parseUuid(rawId)
    case None => Failure(400, InvalidIdFormat, InvalidUuidKind)
    case Some(id) =>
      match service(id)
      case Err(e) => Failure(400, e, kind)
      case Ok(u) => Success(200, done, ToResponse(u))
  }

  function DeactivateUser(rawId: string, parseUuid: string -> Option<string>, deactivate: string -> Result<User>)
    : (r: Reply<UserResponse>)
    ensures r.Failure? <==> parseUuid(rawId).None? || deactivate(parseUuid(rawId).value).Err?
    ensures r.Failure? ==> r.status == 400 && (parseUuid(rawId).Some? ==> r.kind == "DeactivateUserException")
    ensures r.Success? ==>
              r == Success(200, "User deactivated successfully", ToResponse(deactivate(parseUuid(rawId).value).value))
  {
    SetStatus(rawId, parseUuid, deactivate, "DeactivateUserException", "User deactivated successfully")
  }

  function ActivateUser(rawId: string, parseUuid: string -> Option<string>, activate: string -> Result<User>)
    : (r: Reply<UserResponse>)
    ensures r.Failure? <==> parseUuid(rawId).None? || activate(parseUuid(rawId).value).Err?
    ensures r.Failure? ==> r.status == 400 && (parseUuid(rawId).Some? ==> r.kind == "ActivateUserException")
    ensures r.Success? ==>
              r == Success(200, "User activated successfully", ToResponse(activate(parseUuid(rawId).value).value))
  {
    SetStatus(rawId, parseUuid, activate, "ActivateUserException", "User activated successfully")
  }

  /** A malformed path id is answered 400 whatever the service would have done. */
  lemma MalformedIdStopsEarly(rawId: string, parseUuid: string -> Option<string>,
                              get1: string -> Result<User>, get2: string -> Result<User>,
                              role: string, set1: (string, string) -> Result<User>, set2: (string, string) -> Result<User>)
    requires parseUuid(rawId).None?
    ensures GetUserById(rawId, parseUuid, get1) == GetUserById(rawId, parseUuid, get2)
    ensures role != "" ==> SetUserRole(Some(role), rawId, parseUuid, set1) == SetUserRole(Some(role), rawId, parseUuid, set2)
    ensures DeactivateUser(rawId, parseUuid, get1) == DeactivateUser(rawId, parseUuid, get2)
    ensures ActivateUser(rawId, parseUuid, get1) == ActivateUser(rawId, parseUuid, get2)
    ensures GetUserById(rawId, parseUuid, get1).status == 400
  {
  }

  /** An empty role is reported even when the id is malformed too. */
  lemma RoleCheckedBeforeId(rawId: string, parseUuid: string -> Option<string>, setRole: (string, string) -> Result<User>)
    requires parseUuid(rawId).None?
    ensures SetUserRole(Some(""), rawId, parseUuid, setRole).message == RoleRequired
  {
  }

  /** Go's `userID == nil` on the `user_id` local: it was never set, or was set to a nil
      value (a token claim that is missing or JSON null). */
  predicate IsNil(local: Option<Json>) {
    local.None? || local.value.JNull?
  }

  /** Profile: 401 when the `user_id` local is nil, a panic when it is not a string, 404 for
      any service error; the roles are the profile's role names, collected in order. */
  method Profile(local: Option<Json>, getProfile: string -> Result<User>)
    returns (r: Reply<UserProfileResponse>)
    ensures IsNil(local) ==> r == Failure(401, UnauthorizedMessage, "UnauthorizedException")
    ensures !IsNil(local) && !local.value.JStr? ==> r == Panic
    ensures !IsNil(local) && local.value.JStr? ==>
              var p := getProfile(local.value.s);
              (p.Err? ==> r == Failure(404, NotFoundMessage, "NotFoundException"))
              && (p.Ok? ==> r == Success(200, "Profile fetched successfully",
                                         UserProfileResponse(p.value.id, p.value.name, p.value.email,
                                                             p.value.isActive, RoleNames(p.value.roles))))
  {
    if local.None? || local.value.JNull? {
      return Failure(401, UnauthorizedMessage, "UnauthorizedException");
    }
    if !local.value.JStr? {
      return Panic;
    }
    var fetched := getProfile(local.value.s);
    if fetched.Err? {
      return Failure(404, NotFoundMessage, "NotFoundException");
    }
    var profile := fetched.value;
    var roles: seq<string> := [];
    var k := 0;
    while k < |profile.roles|
      invariant 0 <= k <= |profile.roles|
      invariant |roles| == k
      invariant forall i :: 0 <= i < k ==> roles[i] == profile.roles[i].name
    {
      roles := roles + [profile.roles[k].name];
      k := k + 1;
    }
    assert roles == RoleNames(profile.roles);
    r := Success(200, "Profile fetched successfully",
                 UserProfileResponse(profile.id, profile.name, profile.email, profile.isActive, roles));
  }

  datatype UpdateProfileRequest = UpdateProfileRequest(name: string, email: string)

  /** UpdateProfile: 401 when the `user_id` local is nil or not a UUID (a panic when it is
      neither nil nor a string), 400 for a bad body, 500 for any service error, else the
      updated user. */
  function UpdateProfile(local: Option<Json>, parseUuid: string -> Option<string>, body: Option<UpdateProfileRequest>,
                         update: (string, string, string) -> Result<User>)
    : (r: Reply<User>)
    ensures IsNil(local) ==> r == Failure(401, UnauthorizedMessage, "Unauthorized")
    ensures !IsNil(local) && !local.value.JStr? ==> r == Panic
    ensures !IsNil(local) && local.value.JStr? && parseUuid(local.value.s).None? ==>
              r == Failure(401, "Invalid user ID", "Unauthorized")
    ensures !IsNil(local) && local.value.JStr? && parseUuid(local.value.s).Some? ==>
              var id := parseUuid(local.value.s).value;
              (body.None? ==> r == Failure(400, InvalidBody, "BadRequest"))
              && (body.Some? && update(id, body.value.name, body.value.email).Err? ==>
                    r == Failure(500, update(id, body.value.name, body.value.email).error, "InternalServerError"))
              && (body.Some? && update(id, body.value.name, body.value.email).Ok? ==>
                    r == Success(200, "Profile updated successfully", update(id, body.value.name, body.value.email).value))
  {
    match local
    case None => Failure(401, UnauthorizedMessage, "Unauthorized")
    case Some(v) =>
      if v.JNull? then Failure(401, UnauthorizedMessage, "Unauthorized")
      else if !v.JStr? then Panic
      else
        match parseUuid(v.s)
        case None => Failure(401, "Invalid user ID", "Unauthorized")
        case Some(id) =>
          match body
          case None => Failure(400, InvalidBody, "BadRequest")
          case Some(req) =>
            match update(id, req.name, req.email)
            case Err(e) => Failure(500, e, "InternalServerError")
            case Ok(u) => Success(200, "Profile updated successfully", u)
  }
}
