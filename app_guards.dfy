/** The second-generation guards (app/middlewares): a bearer-header check that splits
    on spaces, and a role filter over a singular `role` claim. Their answers are bare
    `{"error": ...}` bodies. */
module AppGuards {
  import opened Wrappers
  import opened Strings
  import opened Claims

  const MissingHeader: string := "missing authorization header"
  const BadHeaderFormat: string := "invalid authorization header format"
  const BadToken: string := "invalid or expired token"
  const NoToken: string := "unauthorized"
  const InvalidRole: string := "invalid role"
  const ForbiddenRole: string := "forbidden"

  datatype AppOutcome =
    | Deny(status: int, error: string)
    | Pass(locals: map<string, Json>)

  /** Signature and expiry checking under the built-in access key (utils/jwt.go), abstracted:
      the claims of a good token, or None. */
  type AppValidator = string -> Option<AppClaims>

  /** AuthMiddleware: the header split on single spaces must give exactly two parts, the
      first "bearer" in any case; the second is the token. On success only `userId` is set. */
  function AuthMiddleware(header: string, validate: AppValidator): (o: AppOutcome)
    ensures header == "" ==> o == Deny(401, MissingHeader)
    ensures header != "" ==>
              var parts := Split(header, ' ');
              (!(|parts| == 2 && Lower(parts[0]) == "bearer") ==> o == Deny(401, BadHeaderFormat))
              && (|parts| == 2 && Lower(parts[0]) == "bearer" ==>
                    if validate(parts[1]).None? then o == Deny(401, BadToken)
                    else o == Pass(map["userId" := JStr(validate(parts[1]).value.userId)]))
    ensures o.Deny? ==> o.status == 401
  {
    if header == "" then Deny(401, MissingHeader)
    else
      var parts := Split(header, ' ');
      if |parts| != 2 || Lower(parts[0]) != "bearer" then Deny(401, BadHeaderFormat)
      else
        match validate(parts[1])
        case None => Deny(401, BadToken)
        case Some(claims) => Pass(map["userId" := JStr(claims.userId)])
  }

  /** The header is accepted exactly when it is a case-insensitive "bearer", one space, and
      a space-free token that validates; that token is what gets validated. */
  lemma AuthHeaderShape(scheme: string, token: string, validate: AppValidator)
    ensures AuthMiddleware(scheme + " " + token, validate).Pass? <==>
              ' ' !in scheme && ' ' !in token && Lower(scheme) == "bearer" && validate(token).Some?
    ensures AuthMiddleware(scheme + " " + token, validate).Pass? ==>
              AuthMiddleware(scheme + " " + token, validate).locals == map["userId" := JStr(validate(token).value.userId)]
  {
    var h := scheme + " " + token;
    SplitTwo(h, ' ', scheme, token);
    if ' ' !in scheme && ' ' !in token {
      assert Split(h, ' ') == [scheme, token];
    } else {
      if Split(h, ' ') != [scheme, token] && |Split(h, ' ')| == 2 {
        var parts := Split(h, ' ');
        SplitTwo(h, ' ', parts[0], parts[1]);
        SplitUnique(scheme, token, parts[0], parts[1]);
      }
    }
  }

  /** Two ways of writing a string as separator-free halves around one space agree. */
  lemma SplitUnique(a: string, b: string, c: string, d: string)
    requires a + " " + b == c + " " + d && ' ' !in c && ' ' !in d
    ensures a == c && b == d
  {
    var h := a + " " + b;
    assert h[|a|] == ' ';
    if |a| < |c| {
      assert false;
    } else if |a| > |c| {
      assert false;
    } else {
      assert a == h[..|a|] && c == (c + " " + d)[..|c|];
      assert b == h[|a| + 1..] && d == (c + " " + d)[|c| + 1..];
    }
  }

  /** A space inside the token part (a doubled separator, or a third part) is a format error. */
  lemma ExtraSpaceRejected(scheme: string, token: string, validate: AppValidator)
    requires ' ' in token
    ensures AuthMiddleware(scheme + " " + token, validate) == Deny(401, BadHeaderFormat)
  {
    var h := scheme + " " + token;
    assert h != "" by { assert |h| > 0; }
    var parts := Split(h, ' ');
    if |parts| == 2 {
      SplitTwo(h, ' ', parts[0], parts[1]);
      assert parts == [parts[0], parts[1]];
      SplitUnique(scheme, token, parts[0], parts[1]);
      assert false;
    }
  }

  /** A lower-case scheme is accepted. */
  lemma LowercaseSchemeAccepted(validate: AppValidator)
    requires validate("x").Some?
    ensures AuthMiddleware("bearer x", validate).Pass?
  {
    assert "bearer x" == "bearer" + " " + "x";
    assert Lower("bearer") == "bearer";
    AuthHeaderShape("bearer", "x", validate);
  }

  /** A doubled space between scheme and token is a format error. */
  lemma DoubleSpaceRejected(validate: AppValidator)
    ensures AuthMiddleware("Bearer  x", validate) == Deny(401, BadHeaderFormat)
  {
    assert "Bearer  x" == "Bearer" + " " + " x" && " x"[0] == ' ';
    ExtraSpaceRejected("Bearer", " x", validate);
  }

  /** A third space-separated part is a format error. */
  lemma ThirdPartRejected(validate: AppValidator)
    ensures AuthMiddleware("Bearer x y", validate) == Deny(401, BadHeaderFormat)
  {
    assert "Bearer x y" == "Bearer" + " " + "x y" && "x y"[1] == ' ';
    ExtraSpaceRejected("Bearer", "x y", validate);
  }

  /** Some allowed role equals `role` up to case (the early-return loop over allowedRoles). */
  function AnyEqualFold(role: string, allowed: seq<string>): (found: bool)
    ensures found <==> exists i :: 0 <= i < |allowed| && EqualFold(role, allowed[i])
    decreases |allowed|
  {
    if |allowed| == 0 then false
    else EqualFold(role, allowed[0]) || AnyEqualFold(role, allowed[1..])
  }

  /** Authorize: `user`, the parsed token left in the request by an earlier guard (None when
      absent), must carry a string `role` that equals one of the allowed roles up to case. */
  function Authorize(user: Option<ClaimSet>, allowed: seq<string>): (o: AppOutcome)
    ensures user.None? ==> o == Deny(401, NoToken)
    ensures user.Some? && !Get(user.value, "role").JStr? ==> o == Deny(403, InvalidRole)
    ensures user.Some? && Get(user.value, "role").JStr? ==>
              var role := Get(user.value, "role").s;
              ((exists i :: 0 <= i < |allowed| && EqualFold(role, allowed[i])) ==> o == Pass(map[]))
              && (!(exists i :: 0 <= i < |allowed| && EqualFold(role, allowed[i])) ==> o == Deny(403, ForbiddenRole))
  {
    match user
    case None => Deny(401, NoToken)
    case Some(claims) =>
      var role := Get(claims, "role");
      if !role.JStr? then Deny(403, InvalidRole)
      else if AnyEqualFold(role.s, allowed) then Pass(map[])
      else Deny(403, ForbiddenRole)
  }

  /** With nothing allowed, every request with a role is forbidden. */
  lemma AuthorizeNoneAllowed(user: Option<ClaimSet>)
    requires user.Some?
    ensures Authorize(user, []).Deny? && Authorize(user, []).status == 403
  {
  }

  /** Only the set of allowed roles matters, not their order or repetition. */
  lemma AuthorizeOrderFree(user: Option<ClaimSet>, a: seq<string>, b: seq<string>)
    requires forall x :: x in a <==> x in b
    ensures Authorize(user, a) == Authorize(user, b)
  {
    if user.Some? && Get(user.value, "role").JStr? {
      var role := Get(user.value, "role").s;
      if exists i :: 0 <= i < |a| && EqualFold(role, a[i]) {
        var i :| 0 <= i < |a| && EqualFold(role, a[i]);
        assert a[i] in b;
        var j :| 0 <= j < |b| && b[j] == a[i];
      }
      if exists j :: 0 <= j < |b| && EqualFold(role, b[j]) {
        var j :| 0 <= j < |b| && EqualFold(role, b[j]);
        assert b[j] in a;
        var i :| 0 <= i < |a| && a[i] == b[j];
      }
    }
  }

  /** The case of the role does not matter. */
  lemma AuthorizeIgnoresCase(claims: ClaimSet, allowed: seq<string>)
    requires Get(claims, "role") == JStr("admin") && "ADMIN" in allowed
    ensures Authorize(Some(claims), allowed) == Pass(map[])
  {
    var i :| 0 <= i < |allowed| && allowed[i] == "ADMIN";
    assert EqualFold("admin", allowed[i]);
  }

  /** Authorize's `c.Locals("user")`: the parsed token an earlier guard stored under
      "user", carried as the object of its claims; None when nothing (or null) is stored. */
  function UserLocal(locals: map<string, Json>): (user: Option<ClaimSet>)
    ensures "user" !in locals ==> user.None?
    ensures "user" in locals && locals["user"].JObj? ==> user == Some(locals["user"].fields)
  {
    if "user" in locals && locals["user"].JObj? then Some(locals["user"].fields) else None
  }

  /** The two guards do not compose: the auth guard stores only `userId`, never the parsed
      token Authorize looks for, so Authorize behind it answers 401 to every request. */
  lemma AuthThenAuthorizeRejects(header: string, validate: AppValidator, allowed: seq<string>)
    requires AuthMiddleware(header, validate).Pass?
    ensures Authorize(UserLocal(AuthMiddleware(header, validate).locals), allowed) == Deny(401, NoToken)
  {
    var locals := AuthMiddleware(header, validate).locals;
    assert locals.Keys == {"userId"};
  }
}
