/** The route guard wrapped around every protected page. */
module PrivateRoute {
  import opened Wrappers
  import opened Users
  import Permissions

  datatype GuardOutcome = RedirectToLogin | RedirectToDashboard | RenderChildren

  /** An unauthenticated session goes to the login page; an authenticated
      non-administrator on an administrators-only route goes to the dashboard;
      everyone else sees the page. */
  function Guard(isAuthenticated: bool, user: Option<User>, requireAdmin: bool): (r: GuardOutcome)
    ensures !isAuthenticated ==> r == RedirectToLogin
    ensures isAuthenticated ==> (r == RenderChildren <==> !requireAdmin || Permissions.IsAdmin(user))
    ensures isAuthenticated && requireAdmin && !Permissions.IsAdmin(user) ==> r == RedirectToDashboard
  {
    if !isAuthenticated then RedirectToLogin
    else if requireAdmin && (user.None? || user.value.role != ADMIN) then RedirectToDashboard
    else RenderChildren
  }

  /** With the default `requireAdmin = false` only authentication matters. */
  lemma DefaultGuardOnlyChecksAuthentication(isAuthenticated: bool, user: Option<User>)
    ensures Guard(isAuthenticated, user, false) == (if isAuthenticated then RenderChildren else RedirectToLogin)
  {
  }

  /** An administrators-only page renders exactly for sessions whose user may
      create users. */
  lemma AdminGuardMatchesCreatePermission(user: Option<User>)
    ensures Guard(true, user, true) == RenderChildren <==> Permissions.CanCreateUser(user)
  {
  }
}
