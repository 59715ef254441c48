/**
 * The protected layout (app/dashboard/layout.tsx): which view it renders,
 * and when it sends the visitor to the login page, given the provider's
 * `loading` flag and user.
 */
module DashboardLayout {
  import opened Wrappers
  import opened Navigation
  import AuthProvider

  /** The three renderings: the session check, the spinner shown while leaving, the dashboard itself. */
  datatype View = VerifyingSession | RedirectSpinner | SidebarAndChildren

  datatype Gate = Gate(view: View, redirect: Option<Navigation>)

  /** The layout's effect and render for one state of the provider. */
  function LayoutGate(loading: bool, hasUser: bool): (g: Gate)
    ensures loading ==> g.view == VerifyingSession && g.redirect.None?
    ensures g.view == SidebarAndChildren <==> !loading && hasUser
    ensures g.redirect.Some? <==> !loading && !hasUser
    ensures g.redirect.Some? ==> g.redirect.value == Replace(LoginRoute)
    ensures !hasUser ==> g.view != SidebarAndChildren
  {
    var redirect := if !loading && !hasUser then Some(Replace(LoginRoute)) else None;
    if loading then Gate(VerifyingSession, redirect)
    else if !hasUser then Gate(RedirectSpinner, redirect)
    else Gate(SidebarAndChildren, redirect)
  }

  /**
   * On a protected route, once the first check has resolved, the layout
   * and the provider ask for the same redirect: both to the login page
   * without a session, neither with one.
   */
  lemma LayoutAgreesWithProvider(session: Option<AuthProvider.Session>, pathname: string)
    requires AuthProvider.IsProtectedRoute(pathname)
    ensures LayoutGate(false, AuthProvider.SessionUser(session).Some?).redirect
      == AuthProvider.RedirectFor(session.Some?, pathname)
  {
    if session.Some? {
      assert pathname != LoginRoute by {
        assert pathname[..|DashboardRoute|] == DashboardRoute;
        assert |pathname| >= 10;
      }
    }
  }

  /** Before the provider's first check has finished, the dashboard is never shown. */
  lemma NoChildrenBeforeCheck(p: AuthProvider.AuthProvider)
    requires p.Valid() && !p.initialCheckDone
    ensures LayoutGate(p.loading, p.user.Some?).view == VerifyingSession
    ensures LayoutGate(p.loading, p.user.Some?).redirect.None?
  {
  }
}
