/** Role-based access predicates over a (current user, target user) pair. An
    absent user (`null` or `undefined`) is `None`; every predicate is total and
    answers false rather than failing. */
module Permissions {
  import opened Wrappers
  import opened Users

  /** `isAdmin(user)`: `user?.role === 'admin'`. */
  predicate IsAdmin(user: Option<User>) {
    user.Some? && user.value.role == ADMIN
  }

  /** An administrator may edit anyone; anyone else only the record with their
      own id. */
  function CanEditUser(current: Option<User>, target: Option<User>): (r: bool)
    ensures r <==> current.Some? && target.Some? &&
                   (current.value.role == ADMIN || current.value.id == target.value.id)
  {
    if current.None? || target.None? then false
    else if current.value.role == ADMIN then true
    else current.value.id == target.value.id
  }

  /** Only an administrator may delete, never themself and never another
      administrator. */
  function CanDeleteUser(current: Option<User>, target: Option<User>): (r: bool)
    ensures r <==> current.Some? && target.Some? && current.value.role == ADMIN &&
                   current.value.id != target.value.id && target.value.role != ADMIN
  {
    if current.None? || target.None? then false
    else if current.value.role != ADMIN then false
    else if current.value.id == target.value.id then false
    else if target.value.role == ADMIN then false
    else true
  }

  function CanCreateUser(current: Option<User>): (r: bool)
    ensures r <==> IsAdmin(current)
  {
    if current.None? then false else current.value.role == ADMIN
  }

  function CanChangeRole(current: Option<User>): (r: bool)
    ensures r <==> IsAdmin(current)
  {
    if current.None? then false else current.value.role == ADMIN
  }

  /** `hasPermission(currentUser, permission, targetUser)`; the target defaults
      to `null` at the call site. */
  function HasPermission(current: Option<User>, permission: string, target: Option<User>): (r: bool)
    ensures permission == "edit_user" ==> r == CanEditUser(current, target)
    ensures permission == "delete_user" ==> r == CanDeleteUser(current, target)
    ensures permission == "create_user" ==> r == CanCreateUser(current)
    ensures permission == "change_role" ==> r == CanChangeRole(current)
    ensures permission !in {"edit_user", "delete_user", "create_user", "change_role"} ==> !r
  {
    match permission
    case "edit_user" => CanEditUser(current, target)
    case "delete_user" => CanDeleteUser(current, target)
    case "create_user" => CanCreateUser(current)
    case "change_role" => CanChangeRole(current)
    case _ => false
  }

  /** Without a current user no permission is ever granted. */
  lemma NoUserNoPermission(permission: string, target: Option<User>)
    ensures !HasPermission(None, permission, target)
  {
  }

  /** No one, whatever their role, may delete their own record. */
  lemma NoSelfDeletion(current: User, target: User)
    requires current.id == target.id
    ensures !CanDeleteUser(Some(current), Some(target))
  {
  }

  /** Whoever may delete a record may also edit it. */
  lemma DeleteImpliesEdit(current: Option<User>, target: Option<User>)
    ensures CanDeleteUser(current, target) ==> CanEditUser(current, target)
  {
  }

  /** Every user may edit their own record. */
  lemma EditSelf(current: User)
    ensures CanEditUser(Some(current), Some(current))
  {
  }
}
