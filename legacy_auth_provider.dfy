/**
 * The older session provider (components/auth-provider.tsx): it redirects
 * every route but the login page when there is no session, sends a
 * signed-in user on the login page to `/`, navigates with `push`, has no
 * error path and no initial-check gating, and offers sign-out.
 */
module LegacyAuthProvider {
  import opened Wrappers
  import opened Navigation
  import AuthProvider

  /** The older provider's home route. */
  const HomeRoute := "/"

  /** The redirect rule, used both after `getSession()` and on every auth change. */
  function RedirectFor(hasSession: bool, pathname: string): (r: Option<Navigation>)
    ensures r == Some(Push(LoginRoute)) <==> !hasSession && pathname != LoginRoute
    ensures r == Some(Push(HomeRoute)) <==> hasSession && pathname == LoginRoute
    ensures r.None? <==> (hasSession && pathname != LoginRoute) || (!hasSession && pathname == LoginRoute)
  {
    if !hasSession && pathname != LoginRoute then Some(Push(LoginRoute))
    else if hasSession && pathname == LoginRoute then Some(Push(HomeRoute))
    else None
  }

  /** A redirect never targets the current route and leads to a route that asks for none. */
  lemma RedirectSettles(hasSession: bool, pathname: string)
    ensures RedirectFor(hasSession, pathname).Some? ==>
      var target := RedirectFor(hasSession, pathname).value.route;
      target != pathname && RedirectFor(hasSession, target).None?
  {
  }

  /**
   * Where the two providers part: without a session this one sends every
   * unprotected route but the login page to login, and with a session it
   * leaves the login page for `/`, not for `/dashboard`.
   */
  lemma DiffersFromCurrentProvider()
    ensures RedirectFor(false, "/") == Some(Push(LoginRoute))
    ensures AuthProvider.RedirectFor(false, "/").None?
    ensures RedirectFor(true, LoginRoute) == Some(Push(HomeRoute))
    ensures AuthProvider.RedirectFor(true, LoginRoute) == Some(Replace(DashboardRoute))
  {
    assert !AuthProvider.IsProtectedRoute("/");
  }

  class LegacyAuthProvider {
    var user: Option<AuthProvider.AuthUser>
    var loading: bool

    constructor ()
      ensures user == None && loading
    {
      user := None;
      loading := true;
    }

    /** The continuation of `getSession()`: the only place loading ends. */
    method OnSessionResolved(session: Option<AuthProvider.Session>, pathname: string) returns (nav: Option<Navigation>)
      modifies this
      ensures !loading
      ensures user == AuthProvider.SessionUser(session)
      ensures nav == RedirectFor(session.Some?, pathname)
    {
      user := AuthProvider.SessionUser(session);
      loading := false;
      nav := RedirectFor(session.Some?, pathname);
    }

    /** The `onAuthStateChange` callback: same rule, no gating, loading untouched. */
    method OnAuthStateChange(session: Option<AuthProvider.Session>, pathname: string) returns (nav: Option<Navigation>)
      modifies this
      ensures loading == old(loading)
      ensures user == AuthProvider.SessionUser(session)
      ensures nav == RedirectFor(session.Some?, pathname)
    {
      user := AuthProvider.SessionUser(session);
      nav := RedirectFor(session.Some?, pathname);
    }

    /**
     * `handleSignOut`: once the auth service's `signOut()` has returned, a
     * push to the login page; a rejected call throws before the push.
     */
    method SignOut(signOutReturned: bool) returns (nav: Option<Navigation>)
      ensures nav.Some? <==> signOutReturned
      ensures nav.Some? ==> nav.value == Push(LoginRoute)
    {
      nav := None;
      if signOutReturned {
        nav := Some(Push(LoginRoute));
      }
    }
  }
}
