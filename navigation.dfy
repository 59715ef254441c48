/** Router calls the auth code makes, and the routes it names. */
module Navigation {

  /** `router.push(route)` or `router.replace(route)`. */
  datatype Navigation = Push(route: string) | Replace(route: string)

  /** The login page. */
  const LoginRoute := "/login"

  /** The protected area, and the home of a signed-in user. */
  const DashboardRoute := "/dashboard"
}
