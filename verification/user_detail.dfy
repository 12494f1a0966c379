/** The profile page of one user: the missing-record redirect and the
    edit/delete rights it derives inline from the viewer's role. */
module UserDetail {
  import opened Wrappers
  import opened Users
  import opened UserSlice
  import Permissions

  /** The page either leaves for `/users` (no record with the id) or shows the
      profile with its action buttons. */
  datatype DetailView =
    | RedirectToUsers
    | Profile(user: User, isOwnProfile: bool, showEditLink: bool, showDeleteButton: bool)

  function ViewDetail(users: seq<User>, id: string, current: Option<User>): (r: DetailView)
    ensures r.RedirectToUsers? <==> FindById(users, id).None?
    ensures r.Profile? ==> Some(r.user) == FindById(users, id)
    ensures r.Profile? ==> (r.isOwnProfile <==> current.Some? && current.value.id == r.user.id)
    ensures r.Profile? ==> (r.showEditLink <==> Permissions.CanEditUser(current, Some(r.user)))
    ensures r.Profile? ==> (r.showDeleteButton <==> Permissions.IsAdmin(current) && !r.isOwnProfile)
  {
    match FindById(users, id)
    case None => RedirectToUsers
    case Some(user) =>
      var isOwnProfile := current.Some? && current.value.id == user.id;
      var isCurrentUserAdmin := current.Some? && current.value.role == ADMIN;
      var canEdit := isOwnProfile || isCurrentUserAdmin;
      var canDelete := isCurrentUserAdmin && !isOwnProfile;
      Profile(user, isOwnProfile, canEdit, canDelete)
  }

  /** The page's delete rule is looser than `canDeleteUser`: the two disagree
      exactly when an administrator views another administrator. */
  lemma DeleteButtonVersusPermission(users: seq<User>, id: string, current: Option<User>)
    requires ViewDetail(users, id, current).Profile?
    ensures var v := ViewDetail(users, id, current);
            Permissions.CanDeleteUser(current, Some(v.user)) ==> v.showDeleteButton
    ensures var v := ViewDetail(users, id, current);
            v.showDeleteButton && !Permissions.CanDeleteUser(current, Some(v.user)) <==>
            Permissions.IsAdmin(current) && current.value.id != v.user.id && v.user.IsAdminRecord()
  {
  }

  /** The confirmed deletion dispatches `deleteUser(id)`; when the button was
      offered beyond what `canDeleteUser` allows, the store refuses and the
      directory is unchanged. */
  lemma StoreRefusesWhatThePageOffers(users: seq<User>, id: string, current: Option<User>)
    requires ViewDetail(users, id, current).Profile?
    requires ViewDetail(users, id, current).showDeleteButton
    requires !Permissions.CanDeleteUser(current, Some(ViewDetail(users, id, current).user))
    ensures DeleteUser(users, id) == users
  {
  }

  /** Two administrators: each is offered the button on the other's page, and
      the deletion changes nothing. */
  lemma AdminViewingAdmin()
    ensures var a := User("1", "a@x.io", None, "A", "A", None, None, "", ADMIN);
            var b := User("3", "b@x.io", None, "B", "B", None, None, "", ADMIN);
            var v := ViewDetail([a, b], "1", Some(b));
            v.Profile? && v.showDeleteButton && !Permissions.CanDeleteUser(Some(b), Some(a)) &&
            DeleteUser([a, b], "1") == [a, b]
  {
    var a := User("1", "a@x.io", None, "A", "A", None, None, "", ADMIN);
    var b := User("3", "b@x.io", None, "B", "B", None, None, "", ADMIN);
    assert IndexOfId([a, b], "1") == Some(0);
  }
}
