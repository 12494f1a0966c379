/** The page frame: which navigation link is highlighted and when the navbar
    and footer appear. */
module Layout {
  import opened Wrappers
  import opened Text
  import opened Users
  import opened Routes

  /** `isActive(path)`: the current path is `path` itself or lies below it. */
  predicate IsActive(pathname: string, path: string) {
    pathname == path || StartsWith(pathname, path + "/")
  }

  /** A path activates its own link and every link it lies below, and a path
      that merely continues the link's text without a slash does not. */
  lemma IsActiveCharacterized(path: string, rest: string, other: string)
    ensures IsActive(path, path)
    ensures IsActive(path + "/" + rest, path)
    ensures |other| > 0 && other[0] != '/' ==> !IsActive(path + other, path)
  {
    assert (path + "/" + rest)[..|path| + 1] == path + "/";
    if |other| > 0 && other[0] != '/' {
      assert (path + other)[|path|] == other[0];
    }
  }

  /** The detail and edit pages of a user highlight the users link, not the
      dashboard link. */
  lemma UserPagesHighlightUsers(id: string)
    requires |id| > 0
    ensures IsActive("/users/" + id, "/users") && !IsActive("/users/" + id, "/dashboard")
    ensures IsActive("/users/" + id + "/edit", "/users")
  {
    IsActiveCharacterized("/users", id, "");
    IsActiveCharacterized("/users", id + "/edit", "");
    assert "/users/" + id + "/edit" == "/users" + "/" + (id + "/edit");
    assert ("/users/" + id)[1] == 'u';
  }

  datatype Chrome = Chrome(navbar: bool, footer: bool, mainClass: string)

  /** The frame around every page: navbar and footer only with a session. */
  function PageChrome(isAuthenticated: bool): (r: Chrome)
    ensures r.navbar == isAuthenticated && r.footer == isAuthenticated
    ensures r.mainClass == (if r.navbar then "main-content" else "main-content-public")
  {
    if isAuthenticated then Chrome(true, true, "main-content")
    else Chrome(false, false, "main-content-public")
  }

  /** The navbar shows exactly on the pages a signed-in user can reach, never
      around the login and registration forms. */
  lemma NavbarOnlyInsideTheApplication(route: Route, isAuthenticated: bool, user: Option<User>)
    ensures var page := Settle(route, isAuthenticated, user, 2);
            page.Some? &&
            (PageChrome(isAuthenticated).navbar <==> page.value != LoginPage && page.value != RegisterPage)
  {
    EveryRouteSettles(route, isAuthenticated, user);
  }
}
