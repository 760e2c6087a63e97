/** The request guards of pkg/middleware: each reads the `Authorization` header, takes
    the token after a literal "Bearer " prefix (the bearer scheme of section 2.1 of
    RFC 6750, spelled exactly), verifies it, and then decides on the claims. */
module Guards {
  import opened Wrappers
  import opened Strings
  import opened Entities
  import opened Claims

  const BearerPrefix: string := "Bearer "
  const Unauthorized: string := "UnauthorizedException"
  const Forbidden: string := "ForbiddenException"

  const MissingHeader: string := "Missing authorization header"
  const MissingHeaderTeacher: string := "Missing Authorization header"
  const InvalidFormat: string := "Invalid token format"
  const InvalidToken: string := "Invalid or expired token"
  const BadUserIdClaim: string := "Invalid user ID in token"
  const BadUserIdFormat: string := "Invalid user ID format"
  const NoRoles: string := "No roles found in token"
  const TeacherOnly: string := "Access restricted to TEACHER only"
  const NotAuthorized: string := "You are not authorized"
  const AdminOnly: string := "Access restricted to ADMIN only"

  /** A guard either answers the request with an error or passes it on to the handler
      with the request-scoped values (Fiber locals) it set. */
  datatype Outcome =
    | Reject(status: int, message: string, kind: string)
    | Admit(locals: map<string, Json>)

  /** The header-and-signature stage the three guards share. */
  datatype Verified = Verified(claims: ClaimSet) | Refused(message: string)

  /** Authenticate: an empty header, a header without the exact "Bearer " prefix, and a
      token that does not verify are refused, in that order; otherwise the claims of the
      token, which is the header with that one prefix removed. */
  function Authenticate(header: string, missingMessage: string, verify: Verifier): (r: Verified)
    ensures header == "" ==> r == Refused(missingMessage)
    ensures header != "" && !HasPrefix(header, BearerPrefix) ==> r == Refused(InvalidFormat)
    ensures header != "" && HasPrefix(header, BearerPrefix) ==>
              header == BearerPrefix + header[7..]
              && (verify(header[7..]).None? ==> r == Refused(InvalidToken))
              && (verify(header[7..]).Some? ==> r == Verified(verify(header[7..]).value))
  {
    if header == "" then Refused(missingMessage)
    else
      var token := TrimPrefix(header, BearerPrefix);
      TrimPrefixUnchangedIff(header, BearerPrefix);
      if token == header then Refused(InvalidFormat)
      else
        match verify(token)
        case None => Refused(InvalidToken)
        case Some(claims) => Verified(claims)
  }

  // ------------------------------------------------------------ AuthMiddleware

  /** AuthMiddleware: after authentication, `user_id` must be a string claim that parses
      as a UUID; it is then the only value stored for the handler. */
  function AuthMiddleware(header: string, verify: Verifier, isUuid: string -> bool): (o: Outcome)
    ensures Authenticate(header, MissingHeader, verify).Refused? ==>
              o == Reject(401, Authenticate(header, MissingHeader, verify).message, Unauthorized)
    ensures Authenticate(header, MissingHeader, verify).Verified? ==>
              var id := Get(Authenticate(header, MissingHeader, verify).claims, "user_id");
              (!id.JStr? ==> o == Reject(401, BadUserIdClaim, Unauthorized))
              && (id.JStr? && !isUuid(id.s) ==> o == Reject(401, BadUserIdFormat, Unauthorized))
              && (id.JStr? && isUuid(id.s) ==> o == Admit(map["user_id" := id]))
    ensures o.Reject? ==> o.status == 401
  {
    match Authenticate(header, MissingHeader, verify)
    case Refused(m) => Reject(401, m, Unauthorized)
    case Verified(claims) =>
      var id := Get(claims, "user_id");
      if !id.JStr? then Reject(401, BadUserIdClaim, Unauthorized)
      else if !isUuid(id.s) then Reject(401, BadUserIdFormat, Unauthorized)
      else Admit(map["user_id" := id])
  }

  // --------------------------------------------------------- TeacherMiddleware

  /** A list element that names the teacher role: a string equal to "TEACHER" up to case. */
  predicate IsTeacherEntry(j: Json) {
    j.JStr? && EqualFold(j.s, TEACHER)
  }

  /** The teacher test on the `roles` claim, by its shape: a string must equal "TEACHER" up
      to case; a list must hold such a string (other elements are skipped); any other
      value passes when its printed form, trimmed and upper-cased, contains "TEACHER". */
  predicate TeacherClaim(raw: Json, show: Json -> string) {
    match raw
    case JStr(s) => EqualFold(s, TEACHER)
    case JArr(items) => exists i :: 0 <= i < |items| && IsTeacherEntry(items[i])
    case _ => Contains(Upper(TrimSpace(show(raw))), TEACHER)
  }

  /** The decision TeacherMiddleware makes. `show` is how Go's fmt.Sprint prints a value. */
  function TeacherDecision(header: string, verify: Verifier, show: Json -> string): Outcome {
    match Authenticate(header, MissingHeaderTeacher, verify)
    case Refused(m) => Reject(401, m, Unauthorized)
    case Verified(claims) =>
      if "roles" !in claims then Reject(403, NoRoles, Forbidden)
      else if !TeacherClaim(claims["roles"], show) then Reject(403, TeacherOnly, Forbidden)
      else Admit(map["user_id" := Get(claims, "user_id"), "email" := Get(claims, "email"), "roles" := claims["roles"]])
  }

  /** TeacherMiddleware, with the list case scanned element by element until a teacher
      entry is found. */
  method TeacherMiddleware(header: string, verify: Verifier, show: Json -> string) returns (o: Outcome)
    ensures o == TeacherDecision(header, verify, show)
  {
    var auth := Authenticate(header, MissingHeaderTeacher, verify);
    if auth.Refused? {
      return Reject(401, auth.message, Unauthorized);
    }
    var claims := auth.claims;
    if "roles" !in claims {
      return Reject(403, NoRoles, Forbidden);
    }
    var rawRoles := claims["roles"];
    var isTeacher := false;
    match rawRoles {
      case JStr(s) =>
        isTeacher := EqualFold(s, TEACHER);
      case JArr(roles) =>
        var k := 0;
        while k < |roles|
          invariant 0 <= k <= |roles|
          invariant forall i :: 0 <= i < k ==> !IsTeacherEntry(roles[i])
        {
          if roles[k].JStr? && EqualFold(roles[k].s, TEACHER) {
            isTeacher := true;
            break;
          }
          k := k + 1;
        }
        assert isTeacher <==> exists i :: 0 <= i < |roles| && IsTeacherEntry(roles[i]);
      case _ =>
        isTeacher := Contains(Upper(TrimSpace(show(rawRoles))), TEACHER);
    }
    assert isTeacher == TeacherClaim(rawRoles, show);
    if !isTeacher {
      return Reject(403, TeacherOnly, Forbidden);
    }
    o := Admit(map["user_id" := Get(claims, "user_id"), "email" := Get(claims, "email"), "roles" := rawRoles]);
  }

  // ----------------------------------------------------------- AdminMiddleware

  /** A list element that grants the admin role: an object whose `name` is the string
      "ADMIN", compared exactly. */
  predicate IsAdminEntry(j: Json) {
    j.JObj? && Get(j.fields, "name") == JStr(ADMIN)
  }

  /** The decision AdminMiddleware makes: the `roles` claim must be a list holding an
      admin entry; nothing is stored for the handler. */
  function AdminDecision(header: string, verify: Verifier): Outcome {
    match Authenticate(header, MissingHeader, verify)
    case Refused(m) => Reject(401, m, Unauthorized)
    case Verified(claims) =>
      var roles := Get(claims, "roles");
      if !roles.JArr? then Reject(403, NotAuthorized, Forbidden)
      else if exists i :: 0 <= i < |roles.items| && IsAdminEntry(roles.items[i]) then Admit(map[])
      else Reject(403, AdminOnly, Forbidden)
  }

  /** AdminMiddleware, scanning the role list until an admin entry is found. */
  method AdminMiddleware(header: string, verify: Verifier) returns (o: Outcome)
    ensures o == AdminDecision(header, verify)
  {
    var auth := Authenticate(header, MissingHeader, verify);
    if auth.Refused? {
      return Reject(401, auth.message, Unauthorized);
    }
    var rolesClaim := Get(auth.claims, "roles");
    if !rolesClaim.JArr? {
      return Reject(403, NotAuthorized, Forbidden);
    }
    var roles := rolesClaim.items;
    var isAdmin := false;
    var k := 0;
    while k < |roles|
      invariant 0 <= k <= |roles|
      invariant forall i :: 0 <= i < k ==> !IsAdminEntry(roles[i])
    {
      if roles[k].JObj? {
        var name := Get(roles[k].fields, "name");
        if name.JStr? && name.s == ADMIN {
          isAdmin := true;
          break;
        }
      }
      k := k + 1;
    }
    if !isAdmin {
      return Reject(403, AdminOnly, Forbidden);
    }
    o := Admit(map[]);
  }

  // ------------------------------------------------------------------ lemmas

  /** Every guard answers an unusable header or token with 401 before looking at roles. */
  lemma UnauthenticatedIs401(header: string, verify: Verifier, isUuid: string -> bool, show: Json -> string)
    requires header == "" || !HasPrefix(header, BearerPrefix) || verify(header[7..]).None?
    ensures AuthMiddleware(header, verify, isUuid).Reject? && AuthMiddleware(header, verify, isUuid).status == 401
    ensures TeacherDecision(header, verify, show).Reject? && TeacherDecision(header, verify, show).status == 401
    ensures AdminDecision(header, verify).Reject? && AdminDecision(header, verify).status == 401
  {
  }

  /** The auth guard admits exactly a verified token whose `user_id` is a UUID string, and
      passes that string on. */
  lemma AuthAdmitsIff(header: string, verify: Verifier, isUuid: string -> bool)
    ensures AuthMiddleware(header, verify, isUuid).Admit? <==>
              HasPrefix(header, BearerPrefix) && verify(header[7..]).Some?
              && Get(verify(header[7..]).value, "user_id").JStr?
              && isUuid(Get(verify(header[7..]).value, "user_id").s)
    ensures AuthMiddleware(header, verify, isUuid).Admit? ==>
              AuthMiddleware(header, verify, isUuid).locals == map["user_id" := Get(verify(header[7..]).value, "user_id")]
  {
  }

  /** The prefix test is exact: a lower-case scheme or a missing space is a format error. */
  lemma BearerIsCaseSensitive(token: string, verify: Verifier)
    ensures Authenticate("bearer " + token, MissingHeader, verify) == Refused(InvalidFormat)
    ensures Authenticate("Bearer" + token, MissingHeader, verify) == Refused(InvalidFormat) || HasPrefix(token, " ")
  {
    assert ("bearer " + token)[0] == 'b';
    if !HasPrefix(token, " ") {
      var h := "Bearer" + token;
      if |h| >= 7 {
        assert h[6] == token[0];
        assert h[..7] != BearerPrefix by {
          assert token[..1] != " ";
          assert h[6] != ' ';
        }
      }
    }
  }

  /** A list admits a teacher exactly when one of its strings is "TEACHER" up to case;
      adding an element that is not a string changes nothing. */
  lemma {:induction false} TeacherListIgnoresNonStrings(items: seq<Json>, x: Json, show: Json -> string)
    requires !x.JStr?
    ensures TeacherClaim(JArr(items + [x]), show) == TeacherClaim(JArr(items), show)
  {
    var more := items + [x];
    if TeacherClaim(JArr(more), show) {
      var i :| 0 <= i < |more| && IsTeacherEntry(more[i]);
      assert i < |items| && items[i] == more[i];
    }
    if TeacherClaim(JArr(items), show) {
      var i :| 0 <= i < |items| && IsTeacherEntry(items[i]);
      assert more[i] == items[i];
    }
  }

  /** The teacher guard stores `user_id` as it finds it: a non-string, even a missing one,
      reaches the handler unchecked. */
  lemma TeacherKeepsUncheckedUserId(header: string, verify: Verifier, show: Json -> string)
    requires HasPrefix(header, BearerPrefix)
    requires verify(header[7..]) == Some(map["roles" := JStr("teacher")])
    ensures TeacherDecision(header, verify, show) ==
              Admit(map["user_id" := JNull, "email" := JNull, "roles" := JStr("teacher")])
  {
    assert EqualFold("teacher", TEACHER);
  }

  /** Only an object entry counts for the admin guard: the bare string "ADMIN", in a list or
      on its own, is refused, and so is an empty list. */
  lemma AdminNeedsObjectEntry(header: string, verify: Verifier, c: ClaimSet)
    requires HasPrefix(header, BearerPrefix) && verify(header[7..]) == Some(c)
    ensures Get(c, "roles") == JStr(ADMIN) ==> AdminDecision(header, verify) == Reject(403, NotAuthorized, Forbidden)
    ensures Get(c, "roles") == JArr([JStr(ADMIN)]) ==> AdminDecision(header, verify) == Reject(403, AdminOnly, Forbidden)
    ensures Get(c, "roles") == JArr([]) ==> AdminDecision(header, verify) == Reject(403, AdminOnly, Forbidden)
    ensures Get(c, "roles") == JArr([JObj(map["name" := JStr(ADMIN)])]) ==> AdminDecision(header, verify) == Admit(map[])
  {
    if Get(c, "roles") == JArr([JObj(map["name" := JStr(ADMIN)])]) {
      assert IsAdminEntry(Get(c, "roles").items[0]);
    }
  }

  /** The admin test is case-sensitive: an entry named "admin" does not count. */
  lemma AdminIsCaseSensitive()
    ensures !IsAdminEntry(JObj(map["name" := JStr("admin")]))
  {
    assert JStr("admin") != JStr(ADMIN) by {
      assert "admin"[0] != ADMIN[0];
    }
  }

  /** The only tokens this system issues carry `roles` as a plain string, so no login
      token, whatever role it names, ever passes the admin guard. */
  lemma LoginTokenNeverAdmin(header: string, verify: Verifier, c: LoginClaims)
    requires HasPrefix(header, BearerPrefix) && verify(header[7..]) == Some(LoginClaimsJson(c))
    ensures AdminDecision(header, verify) == Reject(403, NotAuthorized, Forbidden)
  {
  }

  /** A login token passes the teacher guard exactly when its role is TEACHER up to case,
      and the guard then stores the token's user id, email and role. */
  lemma LoginTokenTeacher(header: string, verify: Verifier, c: LoginClaims, show: Json -> string)
    requires HasPrefix(header, BearerPrefix) && verify(header[7..]) == Some(LoginClaimsJson(c))
    ensures TeacherDecision(header, verify, show).Admit? <==> EqualFold(c.roles, TEACHER)
    ensures TeacherDecision(header, verify, show).Admit? ==>
              TeacherDecision(header, verify, show).locals ==
                map["user_id" := JStr(c.userId), "email" := JStr(c.email), "roles" := JStr(c.roles)]
  {
  }
}
