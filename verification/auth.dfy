/** The request guards: bearer-token authentication with a fallback user
    when the user lookup yields nothing, and the role check for admin
    routes. Token verification and the user lookup are passed in. */
module Auth {
  import opened Results

  const BearerPrefix: string := "Bearer "

  /** The claims of a verified token. */
  datatype Payload = Payload(id: Option<string>, role: Option<string>, name: Option<string>)

  /** What token verification reports: the claims, or the name of the error. */
  datatype Verification = Verified(payload: Payload) | Failed(errorName: string)

  datatype User = User(id: Option<string>, name: Option<string>, email: Option<string>, role: Option<string>)

  /** A guard either passes the request on with the user attached or answers
      it with an HTTP error. */
  datatype Decision = Proceed(user: User) | Deny(status: int, message: string)

  /** The token of an `Authorization: Bearer <token>` header; an absent or
      empty header reads as the empty string, and an empty token counts as
      missing. */
  function BearerToken(header: Option<string>): (t: Option<string>)
    ensures t.Some? <==> var h := OrElse(header, "");
      |h| > |BearerPrefix| && h[..|BearerPrefix|] == BearerPrefix
    ensures t.Some? ==> BearerPrefix + t.value == header.value && t.value != ""
  {
    var h := OrElse(header, "");
    if |h| >= |BearerPrefix| && h[..|BearerPrefix|] == BearerPrefix && h[|BearerPrefix|..] != ""
    then
      assert BearerPrefix + h[|BearerPrefix|..] == h;
      Some(h[|BearerPrefix|..])
    else None
  }

  /** The user attached when the lookup finds nothing: the token's claims,
      role defaulting to "employee" and name to "User". */
  function FallbackUser(p: Payload): (u: User)
    ensures u.id == p.id && u.email.None?
    ensures u.role == Some(if Truthy(p.role) then p.role.value else "employee")
    ensures u.name == Some(if Truthy(p.name) then p.name.value else "User")
  {
    User(p.id, Some(OrElse(p.name, "User")), None, Some(OrElse(p.role, "employee")))
  }

  /** `requireAuth`. */
  function RequireAuth(header: Option<string>, verify: string -> Verification, lookup: Option<string> -> Option<User>)
    : (d: Decision)
    ensures BearerToken(header).None? ==> d == Deny(401, "Missing token")
    ensures BearerToken(header).Some? ==>
      match verify(BearerToken(header).value)
      case Failed(name) =>
        d == Deny(401, if name == "TokenExpiredError" then "Token expired" else "Invalid token")
      case Verified(p) =>
        d == Proceed(if lookup(p.id).Some? then lookup(p.id).value else FallbackUser(p))
    ensures d.Deny? ==> d.status == 401
  {
    match BearerToken(header)
    case None => Deny(401, "Missing token")
    case Some(token) =>
      match verify(token)
      case Failed(name) =>
        if name == "TokenExpiredError" then Deny(401, "Token expired") else Deny(401, "Invalid token")
      case Verified(p) =>
        match lookup(p.id)
        case Some(u) => Proceed(u)
        case None => Proceed(FallbackUser(p))
  }

  /** `requireRole(role)`: passes exactly the requests whose user has that role. */
  function RequireRole(user: Option<User>, role: string): (d: Decision)
    ensures d.Proceed? <==> user.Some? && user.value.role == Some(role)
    ensures d.Proceed? ==> d.user == user.value
    ensures d.Deny? ==> d == Deny(403, "Forbidden")
  {
    if user.Some? && user.value.role == Some(role) then Proceed(user.value) else Deny(403, "Forbidden")
  }

  /** `requireAuth` followed by `requireRole(role)`, as the admin routes use them. */
  function Guarded(header: Option<string>, verify: string -> Verification,
                   lookup: Option<string> -> Option<User>, role: string): Decision
  {
    match RequireAuth(header, verify, lookup)
    case Deny(s, m) => Deny(s, m)
    case Proceed(u) => RequireRole(Some(u), role)
  }

  /** A guarded route is reached exactly with a bearer token that verifies
      and a resulting user of the required role. */
  lemma GuardedPassesExactly(header: Option<string>, verify: string -> Verification,
                             lookup: Option<string> -> Option<User>, role: string)
    ensures Guarded(header, verify, lookup, role).Proceed? <==>
      && BearerToken(header).Some?
      && verify(BearerToken(header).value).Verified?
      && var p := verify(BearerToken(header).value).payload;
      && (if lookup(p.id).Some? then lookup(p.id).value else FallbackUser(p)).role == Some(role)
  {
  }

  /** When the lookup finds nothing and the token has no role claim, the
      fallback user is an employee and cannot pass an admin guard. */
  lemma FallbackNeverAdmin(header: Option<string>, verify: string -> Verification,
                           lookup: Option<string> -> Option<User>)
    requires BearerToken(header).Some?
    requires verify(BearerToken(header).value).Verified?
    requires var p := verify(BearerToken(header).value).payload;
      lookup(p.id).None? && !Truthy(p.role)
    ensures Guarded(header, verify, lookup, "admin") == Deny(403, "Forbidden")
  {
  }

  /** The token is exactly the header without its "Bearer " prefix. */
  lemma BearerTokenOfPrefixed(token: string)
    requires token != ""
    ensures BearerToken(Some(BearerPrefix + token)) == Some(token)
  {
    var h := BearerPrefix + token;
    assert h[..|BearerPrefix|] == BearerPrefix;
    assert h[|BearerPrefix|..] == token;
  }
}
