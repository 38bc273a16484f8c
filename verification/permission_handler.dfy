/**
 The authorization decision of `PermissionHandler.HandleRequirementAsync`,
 as a pure function of everything the handler reads: the HTTP request, the
 verdicts of the request-handler schemes, the authenticated principal's
 claims, the clock, the cached online-user entry, the admin-bypass setting
 and the user's permission list.
 */
module PermissionHandler {
  import opened Common

  datatype Request = Request(
    path: Option<string>,      // `Request.Path.Value`
    httpMethod: string,        // `Request.Method`
    hasFormContentType: bool,
    remoteIp: Option<string>)

  /** The claims of an authenticated principal; the expiry is in ticks. */
  datatype Principal = Principal(exp: Option<int>, ip: Option<string>)

  /** The cached `LoginUserInfo` fields the handler reads. */
  datatype OnlineUser = OnlineUser(isAdmin: bool)

  datatype Permission = Permission(url: string, httpMethod: string)

  datatype AuthInput = AuthInput(
    request: Option<Request>,            // `HttpContext`, null outside a request
    schemeHandled: seq<bool>,            // `HandleRequestAsync` of each request-handler scheme
    hasDefaultScheme: bool,
    principal: Option<Principal>,        // the default scheme's authenticated principal
    now: int,                            // the clock, in ticks
    online: Option<OnlineUser>,          // the cache entry under the online key of the token
    adminBypass: Option<bool>,           // setting `IsAdminNotAuthentication`, if present
    permissions: seq<Permission>,
    loginPath: string)

  /** The check that decided a failure. */
  datatype Check =
    | NoHttpContext | RequestHandled | Expired | NotOnline | NoPermission
    | NotLoggedIn | Unauthenticated

  /** Why the requirement succeeded. */
  datatype Grant = AdminBypass | PermissionMatched

  datatype Outcome = Succeed(grant: Grant) | Fail(at: Check)

  /** Some scheme reported that it handled (ended) the request. */
  predicate AnyHandled(handled: seq<bool>) {
    exists i :: 0 <= i < |handled| && handled[i]
  }

  /** The token's expiry claim is earlier than now; no claim never expires. */
  predicate IsExpired(p: Principal, now: int) {
    p.exp.Some? && p.exp.value < now
  }

  /** The admin-bypass setting is on and the cached user is an administrator. */
  predicate Bypasses(adminBypass: Option<bool>, user: OnlineUser) {
    adminBypass == Some(true) && user.isAdmin
  }

  /**
   Some permission's url and method equal the lower-cased request path and
   method, ignoring case; an empty list or a null or empty path never matches.
   */
  predicate PermissionMatches(perms: seq<Permission>, path: Option<string>, httpMethod: string) {
    && |perms| != 0
    && path.Some? && Lower(path.value) != ""
    && exists i :: 0 <= i < |perms|
                   && EqualsIgnoreCase(perms[i].url, Lower(path.value))
                   && EqualsIgnoreCase(perms[i].httpMethod, Lower(httpMethod))
  }

  /** The checks on an authenticated principal, in the source's order. */
  function AuthenticatedDecision(a: AuthInput, req: Request, p: Principal): Outcome {
    if IsExpired(p, a.now) then Fail(Expired)
    else if a.online.None? then Fail(NotOnline)
    else if Bypasses(a.adminBypass, a.online.value) then Succeed(AdminBypass)
    // An IP claim that differs from the remote address is noticed and ignored.
    else if PermissionMatches(a.permissions, req.path, req.httpMethod) then Succeed(PermissionMatched)
    else Fail(NoPermission)
  }

  /** The decision, check by check as the handler makes it. */
  function Decide(a: AuthInput): (r: Outcome)
    ensures a.request.None? ==> r == Fail(NoHttpContext)
    ensures a.request.Some? && AnyHandled(a.schemeHandled) ==> r == Fail(RequestHandled)
    ensures !(a.hasDefaultScheme && a.principal.Some?) ==> r.Fail?
    ensures r.Succeed? <==> Admitted(a)
    ensures r == Succeed(AdminBypass) ==> a.online.Some? && a.online.value.isAdmin
  {
    match a.request
    case None => Fail(NoHttpContext)
    case Some(req) =>
      if AnyHandled(a.schemeHandled) then Fail(RequestHandled)
      else if a.hasDefaultScheme && a.principal.Some? then
        AuthenticatedDecision(a, req, a.principal.value)
      else if req.path.Some? && Lower(req.path.value) != Lower(a.loginPath)
              && (req.httpMethod != "POST" || !req.hasFormContentType) then
        Fail(NotLoggedIn)
      else Fail(Unauthenticated)
  }

  /**
   The reference statement of when access is granted: inside a request that no
   scheme handled, an authenticated, unexpired, online user who either is an
   administrator under the bypass setting or holds a matching permission.
   */
  predicate Admitted(a: AuthInput) {
    && a.request.Some?
    && !AnyHandled(a.schemeHandled)
    && a.hasDefaultScheme && a.principal.Some?
    && !IsExpired(a.principal.value, a.now)
    && a.online.Some?
    && (Bypasses(a.adminBypass, a.online.value)
        || PermissionMatches(a.permissions, a.request.value.path, a.request.value.httpMethod))
  }

  /** Expiry is checked first: an expired token fails whatever the cache, setting or permissions say. */
  lemma ExpiryComesFirst(a: AuthInput)
    requires a.request.Some? && !AnyHandled(a.schemeHandled)
    requires a.hasDefaultScheme && a.principal.Some? && IsExpired(a.principal.value, a.now)
    ensures Decide(a) == Fail(Expired)
  {
  }

  /** The cache check follows: a missing online entry fails, even for an administrator's permissions. */
  lemma CacheComesSecond(a: AuthInput)
    requires a.request.Some? && !AnyHandled(a.schemeHandled)
    requires a.hasDefaultScheme && a.principal.Some? && !IsExpired(a.principal.value, a.now)
    requires a.online.None?
    ensures Decide(a) == Fail(NotOnline)
  {
  }

  /** Under the bypass setting an administrator succeeds without any url or method check. */
  lemma AdminBypassSkipsPermissions(a: AuthInput, perms: seq<Permission>)
    requires a.request.Some? && !AnyHandled(a.schemeHandled)
    requires a.hasDefaultScheme && a.principal.Some? && !IsExpired(a.principal.value, a.now)
    requires a.online.Some? && Bypasses(a.adminBypass, a.online.value)
    ensures Decide(a) == Succeed(AdminBypass)
    ensures Decide(a.(permissions := perms)) == Succeed(AdminBypass)
  {
  }

  /** A non-administrator (or any user without the setting) with no permissions fails. */
  lemma NoPermissionsFail(a: AuthInput)
    requires |a.permissions| == 0
    requires a.online.None? || !Bypasses(a.adminBypass, a.online.value)
    ensures Decide(a).Fail?
  {
  }

  /** The remote address and the IP claim never change the outcome. */
  lemma IpNeverMatters(a: AuthInput, remoteIp: Option<string>, ipClaim: Option<string>)
    ensures var b := a.(request := if a.request.Some? then Some(a.request.value.(remoteIp := remoteIp))
                                   else None,
                        principal := if a.principal.Some? then Some(a.principal.value.(ip := ipClaim))
                                     else None);
            Decide(b) == Decide(a)
  {
  }

  /** Requests whose paths and methods differ only in letter case are admitted alike. */
  lemma CaseInsensitive(a: AuthInput, req: Request, path: Option<string>, httpMethod: string)
    requires a.request == Some(req)
    requires path.Some? <==> req.path.Some?
    requires path.Some? ==> Lower(path.value) == Lower(req.path.value)
    requires Lower(httpMethod) == Lower(req.httpMethod)
    ensures Decide(a.(request := Some(req.(path := path, httpMethod := httpMethod)))).Succeed? == Decide(a).Succeed?
  {
    LowerIdempotent(req.httpMethod);
    LowerIdempotent(httpMethod);
    if path.Some? {
      LowerIdempotent(path.value);
      LowerIdempotent(req.path.value);
    }
  }

  /**
   The failing check is case-insensitive as well, except that the login-form
   exemption compares the method with "POST" exactly.
   */
  lemma CaseInsensitiveSameCheck(a: AuthInput, req: Request, path: Option<string>, httpMethod: string)
    requires a.request == Some(req)
    requires path.Some? <==> req.path.Some?
    requires path.Some? ==> Lower(path.value) == Lower(req.path.value)
    requires Lower(httpMethod) == Lower(req.httpMethod)
    requires req.httpMethod == "POST" <==> httpMethod == "POST"
    ensures Decide(a.(request := Some(req.(path := path, httpMethod := httpMethod)))) == Decide(a)
  {
    LowerIdempotent(req.httpMethod);
    LowerIdempotent(httpMethod);
    if path.Some? {
      LowerIdempotent(path.value);
      LowerIdempotent(req.path.value);
    }
  }

  /** Without a signed-in principal every request fails, the login path included. */
  lemma UnauthenticatedAlwaysFails(a: AuthInput)
    requires a.principal.None? || !a.hasDefaultScheme
    ensures Decide(a).Fail?
  {
  }
}
