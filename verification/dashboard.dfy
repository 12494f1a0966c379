/** The dashboard: role statistics over the directory and the short list of
    the first records. */
module Dashboard {
  import opened Wrappers
  import opened Seqs
  import opened Users
  import opened UserSlice
  import Permissions

  datatype Stats = Stats(totalUsers: nat, admins: nat, regularUsers: nat)

  function IsAdminRole(u: User): bool { u.role == ADMIN }
  function IsUserRole(u: User): bool { u.role == USER }

  /** `stats`: the list length and the number of records of each known role. */
  function ComputeStats(users: seq<User>): (s: Stats)
    ensures s.totalUsers == |users|
    ensures s.admins == |set i | 0 <= i < |users| && users[i].role == ADMIN|
    ensures s.regularUsers == |set i | 0 <= i < |users| && users[i].role == USER|
    ensures s.admins + s.regularUsers <= s.totalUsers
    ensures (forall i :: 0 <= i < |users| ==> users[i].role == ADMIN || users[i].role == USER) ==>
              s.admins + s.regularUsers == s.totalUsers
  {
    FilterDisjointCounts(IsAdminRole, IsUserRole, users);
    CountIsIndexSetSize(IsAdminRole, users);
    CountIsIndexSetSize(IsUserRole, users);
    RoleIndices(users, ADMIN, IsAdminRole);
    RoleIndices(users, USER, IsUserRole);
    Stats(|users|, Count(IsAdminRole, users), Count(IsUserRole, users))
  }

  /** The positions a role predicate selects are the positions of that role. */
  lemma RoleIndices(users: seq<User>, role: string, hasRole: User -> bool)
    requires forall u :: hasRole(u) == (u.role == role)
    ensures IndicesWhere(hasRole, users) == set i | 0 <= i < |users| && users[i].role == role
  {
  }

  /** Creating a user raises the total by one and the count of its role by one. */
  lemma CreateUpdatesStats(users: seq<User>, payload: FormData, freshId: string)
    ensures var before, after := ComputeStats(users), ComputeStats(CreateUser(users, payload, freshId));
            after.totalUsers == before.totalUsers + 1 &&
            after.admins == before.admins + (if payload.role == ADMIN then 1 else 0) &&
            after.regularUsers == before.regularUsers + (if payload.role == USER then 1 else 0)
  {
    var created := CreateUser(users, payload, freshId);
    assert created == users + [NewUser(payload, freshId)];
    FilterAppend(IsAdminRole, users, NewUser(payload, freshId));
    FilterAppend(IsUserRole, users, NewUser(payload, freshId));
  }

  /** With unique identifiers, deletion never lowers the administrator count. */
  lemma DeleteKeepsAdminCount(users: seq<User>, id: string)
    requires UniqueIds(users)
    ensures ComputeStats(DeleteUser(users, id)).admins == ComputeStats(users).admins
  {
    var r := DeleteUser(users, id);
    if r != users {
      var k := IndexOfId(users, id).value;
      AdminCountIgnoresNonAdmins(users, id);
    }
  }

  /** Removing the records of an id none of which is an administrator keeps
      the administrator count. */
  lemma {:induction false} AdminCountIgnoresNonAdmins(users: seq<User>, id: string)
    requires forall i :: 0 <= i < |users| && users[i].id == id ==> !users[i].IsAdminRecord()
    ensures Count(IsAdminRole, Filter((u: User) => u.id != id, users)) == Count(IsAdminRole, users)
    decreases |users|
  {
    if |users| > 0 {
      AdminCountIgnoresNonAdmins(users[1..], id);
    }
  }

  /** `users.slice(0, 5)`: the first five records, or all when fewer. */
  function RecentUsers(users: seq<User>): (r: seq<User>)
    ensures IsPrefix(r, users)
    ensures |r| == if |users| < 5 then |users| else 5
  {
    if |users| < 5 then users else users[..5]
  }

  /** The create link is offered to exactly those who may create users. */
  function ShowCreateLink(current: Option<User>): (r: bool)
    ensures r <==> Permissions.CanCreateUser(current)
  {
    current.Some? && current.value.role == ADMIN
  }
}
