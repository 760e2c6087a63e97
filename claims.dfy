/** Decoded token payloads. A verified token's claims are a JSON object
    (jwt.MapClaims); numbers are kept as integers since every numeric claim here
    is a Unix time. */
module Claims {
  import opened Wrappers

  datatype Json =
    | JNull
    | JBool(b: bool)
    | JNum(n: int)
    | JStr(s: string)
    | JArr(items: seq<Json>)
    | JObj(fields: map<string, Json>)

  type ClaimSet = map<string, Json>

  /** `claims[key]` in Go: a missing key reads as nil. */
  function Get(claims: ClaimSet, key: string): (v: Json)
    ensures key !in claims ==> v == JNull
    ensures key in claims ==> v == claims[key]
  {
    if key in claims then claims[key] else JNull
  }

  /** Signature and expiry checking of an HS256 token (RFC 7519; RFC 7518 section 3.2),
      abstracted: the claims of a token that verifies under the configured secret,
      or None for a bad signature, a non-HMAC algorithm, a malformed token or an
      expired one. */
  type Verifier = string -> Option<ClaimSet>

  /** The claims the login endpoint signs (pkg/auth/service.go). */
  datatype LoginClaims = LoginClaims(userId: string, email: string, exp: int, iat: int, roles: string)

  /** How those claims appear once the token is decoded again: `roles` is a plain string. */
  function LoginClaimsJson(c: LoginClaims): (m: ClaimSet)
    ensures m.Keys == {"user_id", "email", "exp", "iat", "roles"}
    ensures m["roles"] == JStr(c.roles) && m["user_id"] == JStr(c.userId)
  {
    map["user_id" := JStr(c.userId), "email" := JStr(c.email), "exp" := JNum(c.exp),
        "iat" := JNum(c.iat), "roles" := JStr(c.roles)]
  }

  /** The claims of the second-generation tokens (utils/jwt.go): a subject and two times. */
  datatype AppClaims = AppClaims(userId: string, expiresAt: int, issuedAt: int)
}
