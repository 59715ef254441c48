/**
 * The session provider the dashboard uses
 * (components/providers/auth-provider.tsx): it holds the signed-in user,
 * a loading flag and whether the first session check has finished, and
 * redirects between the login page and the protected area.
 */
module AuthProvider {
  import opened Wrappers
  import opened Strings
  import opened Navigation

  /** A signed-in identity, known by its id. */
  datatype AuthUser = AuthUser(id: string)

  /** A session as the auth service reports it. */
  datatype Session = Session(user: AuthUser)

  /** `session?.user ?? null` */
  function SessionUser(session: Option<Session>): (u: Option<AuthUser>)
    ensures u.Some? <==> session.Some?
  {
    match session
    case Some(s) => Some(s.user)
    case None => None
  }

  /** Every route under `/dashboard` needs a session (a prefix test). */
  predicate IsProtectedRoute(pathname: string) {
    StartsWith(pathname, DashboardRoute)
  }

  /**
   * The redirect once the session is known: to the login page from a
   * protected route without a session, to the dashboard from the login
   * page with one, and none otherwise.
   */
  function RedirectFor(hasSession: bool, pathname: string): (r: Option<Navigation>)
    ensures r == Some(Replace(LoginRoute)) <==> !hasSession && IsProtectedRoute(pathname)
    ensures r == Some(Replace(DashboardRoute)) <==> hasSession && pathname == LoginRoute
    ensures r.None? <==> (hasSession || !IsProtectedRoute(pathname)) && (!hasSession || pathname != LoginRoute)
  {
    if !hasSession && IsProtectedRoute(pathname) then Some(Replace(LoginRoute))
    else if hasSession && pathname == LoginRoute then Some(Replace(DashboardRoute))
    else None
  }

  /**
   * A redirect never targets the current route, and the route it leads to
   * asks for no further redirect while the session stays as it is.
   */
  lemma RedirectSettles(hasSession: bool, pathname: string)
    ensures RedirectFor(hasSession, pathname).Some? ==>
      var target := RedirectFor(hasSession, pathname).value.route;
      target != pathname && RedirectFor(hasSession, target).None?
  {
    assert !StartsWith(LoginRoute, DashboardRoute);
    if !hasSession && IsProtectedRoute(pathname) {
      assert pathname[..|DashboardRoute|] == DashboardRoute;
      assert pathname != LoginRoute by { assert |pathname| >= 10; }
    }
  }

  /** The outcome of the first `getSession()`: the session or its absence, or a thrown error. */
  datatype SessionCheck = Resolved(session: Option<Session>) | Failed

  class AuthProvider {
    var user: Option<AuthUser>
    var loading: bool
    var initialCheckDone: bool

    /** Loading lasts exactly until the first check has finished. */
    ghost predicate Valid()
      reads this
    {
      loading == !initialCheckDone
    }

    constructor ()
      ensures Valid()
      ensures user == None && loading && !initialCheckDone
    {
      user := None;
      loading := true;
      initialCheckDone := false;
    }

    /**
     * `checkSession`: on both paths the check is marked done and loading
     * ends; a resolved check sets the user and may redirect, a failed one
     * redirects nowhere.
     */
    method CheckSession(result: SessionCheck, pathname: string) returns (nav: Option<Navigation>)
      modifies this
      ensures Valid() && !loading && initialCheckDone
      ensures result.Resolved? ==> user == SessionUser(result.session)
      ensures result.Resolved? ==> nav == RedirectFor(result.session.Some?, pathname)
      ensures result.Failed? ==> user == old(user) && nav.None?
    {
      match result
      case Resolved(session) =>
        user := SessionUser(session);
        initialCheckDone := true;
        loading := false;
        nav := RedirectFor(session.Some?, pathname);
      case Failed =>
        initialCheckDone := true;
        loading := false;
        nav := None;
    }

    /**
     * The `onAuthStateChange` callback: the user always follows the event;
     * a redirect is considered only once the first check has finished.
     */
    method OnAuthStateChange(session: Option<Session>, pathname: string) returns (nav: Option<Navigation>)
      requires Valid()
      modifies this
      ensures Valid()
      ensures user == SessionUser(session)
      ensures loading == old(loading) && initialCheckDone == old(initialCheckDone)
      ensures !initialCheckDone ==> nav.None?
      ensures initialCheckDone ==> nav == RedirectFor(session.Some?, pathname)
    {
      user := SessionUser(session);
      nav := None;
      if initialCheckDone {
        nav := RedirectFor(session.Some?, pathname);
      }
    }
  }
}
