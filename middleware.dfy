/**
 * The route guard of frontend/middleware.ts: which paths need a session,
 * which are sign-in pages, and where each request is sent.
 */
module Middleware {

  /** The name of the session cookie. */
  const SessionCookie: string := "ez_admin.session_token"

  /** `protectedPaths`. */
  const ProtectedPaths: seq<string> :=
    ["/dashboard", "/classes", "/subjects", "/rooms", "/students", "/teachers", "/timetable", "/upload", "/jobs"]

  /** `authPaths`. */
  const AuthPaths: seq<string> := ["/sign-in", "/sign-up"]

  const SignInPath: string := "/sign-in"
  const DashboardPath: string := "/dashboard"

  /** The parts of a request the guard reads: the path and the cookies by name. */
  datatype Request = Request(pathname: string, cookies: map<string, string>)

  /** What the guard answers. */
  datatype Decision =
    | RedirectToSignIn(callbackUrl: string)
    | RedirectToDashboard
    | Next

  /** `!!sessionCookie?.value`: the cookie is there and its value is not empty. */
  predicate IsAuthenticated(cookies: map<string, string>) {
    SessionCookie in cookies && cookies[SessionCookie] != ""
  }

  /** `pathname === p || pathname.startsWith(p + "/")`. */
  predicate UnderPath(pathname: string, p: string) {
    pathname == p || p + "/" <= pathname
  }

  /** `paths.some(...)` with the test above. */
  predicate UnderAny(pathname: string, paths: seq<string>) {
    exists k | 0 <= k < |paths| :: UnderPath(pathname, paths[k])
  }

  predicate IsProtected(pathname: string) {
    UnderAny(pathname, ProtectedPaths)
  }

  predicate IsAuthPage(pathname: string) {
    UnderAny(pathname, AuthPaths)
  }

  /** `middleware`: the protected-path test first, then the sign-in-page test. */
  function Route(r: Request): Decision {
    if IsProtected(r.pathname) && !IsAuthenticated(r.cookies) then RedirectToSignIn(r.pathname)
    else if IsAuthPage(r.pathname) && IsAuthenticated(r.cookies) then RedirectToDashboard
    else Next
  }

  // ----- properties -----

  /** A path under `p` has `p` as a prefix. */
  lemma UnderPathHasPrefix(pathname: string, p: string)
    ensures UnderPath(pathname, p) ==> p <= pathname
  {
    if pathname != p && p + "/" <= pathname {
      assert pathname[..|p|] == (p + "/")[..|p|] == p;
    }
  }

  /** Two prefixes of one text are prefixes of each other. */
  lemma PrefixesNest(x: string, p: string, q: string)
    ensures (p <= x && q <= x && |p| <= |q|) ==> p <= q
  {
    if p <= x && q <= x && |p| <= |q| {
      assert q[..|p|] == x[..|p|] == p;
    }
  }

  /** Each protected path and each sign-in path differ at their second or third character. */
  lemma ListedPathsDiffer(k: nat, l: nat)
    requires k < |ProtectedPaths| && l < |AuthPaths|
    ensures var p := ProtectedPaths[k]; var q := AuthPaths[l];
            var i := if p[1] == 's' then 2 else 1;
            i < |p| && i < |q| && p[i] != q[i]
  {
  }

  /** No path is both protected and a sign-in page. */
  lemma ProtectedAndAuthDisjoint(pathname: string)
    ensures !(IsProtected(pathname) && IsAuthPage(pathname))
  {
    forall k, l | 0 <= k < |ProtectedPaths| && 0 <= l < |AuthPaths|
      ensures !(UnderPath(pathname, ProtectedPaths[k]) && UnderPath(pathname, AuthPaths[l]))
    {
      var p, q := ProtectedPaths[k], AuthPaths[l];
      UnderPathHasPrefix(pathname, p);
      UnderPathHasPrefix(pathname, q);
      ListedPathsDiffer(k, l);
      PrefixesNest(pathname, p, q);
      PrefixesNest(pathname, q, p);
    }
  }

  /**
   * The guard's decision by cases: an unauthenticated request for a protected
   * path goes to sign-in carrying its own path, an authenticated request for
   * a sign-in page goes to the dashboard, and every other request passes.
   */
  lemma RouteDecision(r: Request)
    ensures Route(r) == RedirectToSignIn(r.pathname) <==> IsProtected(r.pathname) && !IsAuthenticated(r.cookies)
    ensures Route(r) == RedirectToDashboard <==> IsAuthPage(r.pathname) && IsAuthenticated(r.cookies)
    ensures Route(r) == Next <==>
              (IsAuthenticated(r.cookies) && !IsAuthPage(r.pathname)) || (!IsAuthenticated(r.cookies) && !IsProtected(r.pathname))
    ensures Route(r).RedirectToSignIn? ==> Route(r).callbackUrl == r.pathname
  {
  }

  /**
   * Only the session cookie counts: other cookies never change the answer,
   * and a session cookie with an empty value is the same as none.
   */
  lemma AuthenticationReadsOnlySessionCookie(cookies: map<string, string>, name: string, value: string)
    ensures name != SessionCookie ==> (IsAuthenticated(cookies[name := value]) <==> IsAuthenticated(cookies))
    ensures !IsAuthenticated(cookies[SessionCookie := ""])
    ensures IsAuthenticated(cookies[SessionCookie := value]) <==> value != ""
  {
  }

  /** Matching is by whole path segment: '/dashboard/x' is protected, '/dashboardx' is not. */
  lemma SegmentMatching()
    ensures IsProtected("/dashboard") && IsProtected("/dashboard/x")
    ensures !IsProtected("/dashboardx")
  {
    assert UnderPath("/dashboard/x", ProtectedPaths[0]);
    assert UnderPath("/dashboard", ProtectedPaths[0]);
    forall k | 0 <= k < |ProtectedPaths| ensures !UnderPath("/dashboardx", ProtectedPaths[k]) {
      if k == 0 {
        assert ("/dashboard" + "/")[10] != "/dashboardx"[10];
      } else {
        assert ProtectedPaths[k][1] != "/dashboardx"[1];
      }
    }
  }

  /** Neither redirect leads into another redirect: the sign-in page and the dashboard each pass for the same cookies. */
  lemma RedirectsDoNotLoop(r: Request)
    ensures Route(r).RedirectToSignIn? ==> Route(Request(SignInPath, r.cookies)) == Next
    ensures Route(r).RedirectToDashboard? ==> Route(Request(DashboardPath, r.cookies)) == Next
  {
    ProtectedAndAuthDisjoint(SignInPath);
    ProtectedAndAuthDisjoint(DashboardPath);
    assert UnderPath(SignInPath, AuthPaths[0]);
    assert UnderPath(DashboardPath, ProtectedPaths[0]);
  }
}
