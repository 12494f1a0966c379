/** The application's route table, over paths already classified by the
    router, and the redirects it issues. */
module Routes {
  import opened Wrappers
  import opened Users
  import opened PrivateRoute
  import Permissions

  /** The declared paths; anything else is `OtherPath`. */
  datatype Route =
    | LoginPath                  // /login
    | RegisterPath               // /register
    | DashboardPath              // /dashboard
    | UsersPath                  // /users
    | CreateUserPath             // /users/create
    | UserPath(id: string)       // /users/:id
    | EditUserPath(id: string)   // /users/:id/edit
    | RootPath                   // /
    | OtherPath

  datatype Page =
    | LoginPage
    | RegisterPage
    | DashboardPage
    | UserListPage
    | CreateFormPage
    | DetailPage(id: string)
    | EditFormPage(id: string)

  datatype RouteOutcome = Redirect(to: Route) | Render(page: Page)

  /** A protected page behind `PrivateRoute`. */
  function Protected(isAuthenticated: bool, user: Option<User>, requireAdmin: bool, page: Page): (r: RouteOutcome)
    ensures r == Render(page) <==> isAuthenticated && (!requireAdmin || Permissions.IsAdmin(user))
    ensures !isAuthenticated ==> r == Redirect(LoginPath)
    ensures isAuthenticated && requireAdmin && !Permissions.IsAdmin(user) ==> r == Redirect(DashboardPath)
  {
    match Guard(isAuthenticated, user, requireAdmin)
    case RedirectToLogin => Redirect(LoginPath)
    case RedirectToDashboard => Redirect(DashboardPath)
    case RenderChildren => Render(page)
  }

  /** What one navigation to `route` shows or where it redirects. */
  function Resolve(route: Route, isAuthenticated: bool, user: Option<User>): (r: RouteOutcome)
    ensures (route == LoginPath || route == RegisterPath) ==>
              (isAuthenticated <==> r == Redirect(DashboardPath))
    ensures route == LoginPath && !isAuthenticated ==> r == Render(LoginPage)
    ensures route == RegisterPath && !isAuthenticated ==> r == Render(RegisterPage)
    ensures route == CreateUserPath ==> (r == Render(CreateFormPage) <==> isAuthenticated && Permissions.IsAdmin(user))
    ensures route == CreateUserPath && !isAuthenticated ==> r == Redirect(LoginPath)
    ensures route == CreateUserPath && isAuthenticated && !Permissions.IsAdmin(user) ==> r == Redirect(DashboardPath)
    ensures route == RootPath ==> r == Redirect(if isAuthenticated then DashboardPath else LoginPath)
    ensures route == OtherPath ==> r == Redirect(RootPath)
    ensures r.Render? && r.page == CreateFormPage ==> isAuthenticated && Permissions.IsAdmin(user)
  {
    match route
    case LoginPath => if isAuthenticated then Redirect(DashboardPath) else Render(LoginPage)
    case RegisterPath => if isAuthenticated then Redirect(DashboardPath) else Render(RegisterPage)
    case DashboardPath => Protected(isAuthenticated, user, false, DashboardPage)
    case UsersPath => Protected(isAuthenticated, user, false, UserListPage)
    case CreateUserPath => Protected(isAuthenticated, user, true, CreateFormPage)
    case UserPath(id) => Protected(isAuthenticated, user, false, DetailPage(id))
    case EditUserPath(id) => Protected(isAuthenticated, user, false, EditFormPage(id))
    case RootPath => Redirect(if isAuthenticated then DashboardPath else LoginPath)
    case OtherPath => Redirect(RootPath)
  }

  /** The protected paths other than user creation need authentication only:
      any authenticated user sees them, and an unauthenticated visitor is sent
      to the login page. */
  lemma AuthenticationOnlyRoutes(route: Route, isAuthenticated: bool, user: Option<User>)
    requires route.DashboardPath? || route.UsersPath? || route.UserPath? || route.EditUserPath?
    ensures isAuthenticated ==> Resolve(route, isAuthenticated, user).Render?
    ensures !isAuthenticated ==> Resolve(route, isAuthenticated, user) == Redirect(LoginPath)
  {
  }

  /** User creation is the only route whose outcome depends on the role. */
  lemma OnlyCreationIsRoleGated(route: Route, isAuthenticated: bool, u1: Option<User>, u2: Option<User>)
    requires route != CreateUserPath
    ensures Resolve(route, isAuthenticated, u1) == Resolve(route, isAuthenticated, u2)
  {
  }

  /** Follows redirects for at most `hops` steps. */
  function Settle(route: Route, isAuthenticated: bool, user: Option<User>, hops: nat): Option<Page>
    decreases hops
  {
    match Resolve(route, isAuthenticated, user)
    case Render(page) => Some(page)
    case Redirect(next) => if hops == 0 then None else Settle(next, isAuthenticated, user, hops - 1)
  }

  /** No redirect loop: every path reaches a page within two redirects. A
      visitor without a session only ever sees the login or registration page;
      a signed-in user never sees them, and reaches the creation form only as
      an administrator. */
  lemma EveryRouteSettles(route: Route, isAuthenticated: bool, user: Option<User>)
    ensures Settle(route, isAuthenticated, user, 2).Some?
    ensures var page := Settle(route, isAuthenticated, user, 2).value;
            (!isAuthenticated ==> page == LoginPage || page == RegisterPage) &&
            (isAuthenticated ==> page != LoginPage && page != RegisterPage) &&
            (page == CreateFormPage ==> Permissions.IsAdmin(user))
  {
  }

  /** A non-administrator who asks for the creation form lands on the dashboard. */
  lemma NonAdminCreateLandsOnDashboard(user: Option<User>)
    requires !Permissions.IsAdmin(user)
    ensures Settle(CreateUserPath, true, user, 2) == Some(DashboardPage)
  {
  }
}
