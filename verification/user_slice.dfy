/** The user-directory store: the create, update and delete reducers and the
    current-profile slot, as pure transitions on an immutable state. Persisting
    the list after each change is not modelled. */
module UserSlice {
  import opened Wrappers
  import opened Seqs
  import opened Users

  datatype UsersState = UsersState(
    users: seq<User>,
    currentProfile: Option<User>,
    loading: bool,
    error: Option<string>)

  /** The state the store starts with when nothing is persisted. */
  const InitialState: UsersState := UsersState(DemoUsers, None, false, None)

  /** A partial record for the update action: the id selects the record and
      every other present field overwrites the stored one. */
  datatype Patch = Patch(
    id: string,
    email: Option<string>,
    password: Option<string>,
    firstName: Option<string>,
    lastName: Option<string>,
    phone: Option<string>,
    bio: Option<string>,
    avatar: Option<string>,
    role: Option<string>)

  const AVATAR_PREFIX: string := "https://ui-avatars.com/api/?name="
  const AVATAR_SUFFIX: string := "&background=random&color=fff"

  /** Avatar address of a newly created user, built from the two names. */
  function AvatarUrl(firstName: string, lastName: string): (url: string)
    ensures |url| == |AVATAR_PREFIX| + |firstName| + 1 + |lastName| + |AVATAR_SUFFIX|
    ensures StartsWithSeq(url, AVATAR_PREFIX)
    ensures url[|AVATAR_PREFIX|..|url| - |AVATAR_SUFFIX|] == firstName + "+" + lastName
    ensures url[|url| - |AVATAR_SUFFIX|..] == AVATAR_SUFFIX
  {
    AVATAR_PREFIX + (firstName + "+" + lastName) + AVATAR_SUFFIX
  }

  predicate StartsWithSeq(s: string, p: string) {
    IsPrefix(p, s)
  }

  /** Two avatar addresses are equal exactly when the "first+last" name
      segments are equal. */
  lemma AvatarUrlDeterminedByNames(f1: string, l1: string, f2: string, l2: string)
    ensures AvatarUrl(f1, l1) == AvatarUrl(f2, l2) <==> f1 + "+" + l1 == f2 + "+" + l2
  {
    var u1, u2 := AvatarUrl(f1, l1), AvatarUrl(f2, l2);
    if u1 == u2 {
      assert u1[|AVATAR_PREFIX|..|u1| - |AVATAR_SUFFIX|] == u2[|AVATAR_PREFIX|..|u2| - |AVATAR_SUFFIX|];
    }
  }

  /** The record the create action appends: the payload's fields, with the
      fresh id and the derived avatar overriding anything else. */
  function NewUser(payload: FormData, freshId: string): User
  {
    User(freshId, payload.email, Some(payload.password), payload.firstName, payload.lastName,
         Some(payload.phone), Some(payload.bio), AvatarUrl(payload.firstName, payload.lastName), payload.role)
  }

  /** `createUser`: appends one record; earlier records keep their place. */
  function CreateUser(users: seq<User>, payload: FormData, freshId: string): (r: seq<User>)
    ensures |r| == |users| + 1
    ensures r[..|users|] == users
    ensures r[|users|].id == freshId && r[|users|].email == payload.email
    ensures r[|users|].password == Some(payload.password)
    ensures r[|users|].firstName == payload.firstName && r[|users|].lastName == payload.lastName
    ensures r[|users|].phone == Some(payload.phone) && r[|users|].bio == Some(payload.bio)
    ensures r[|users|].role == payload.role
    ensures r[|users|].avatar == AvatarUrl(payload.firstName, payload.lastName)
  {
    users + [NewUser(payload, freshId)]
  }

  /** A fresh id keeps the identifiers unique. */
  lemma CreateKeepsIdsUnique(users: seq<User>, payload: FormData, freshId: string)
    requires UniqueIds(users)
    requires forall i :: 0 <= i < |users| ==> users[i].id != freshId
    ensures UniqueIds(CreateUser(users, payload, freshId))
  {
    var r := CreateUser(users, payload, freshId);
    forall i, j | 0 <= i < j < |r|
      ensures r[i].id != r[j].id
    {
      assert r[i] == users[i];
      if j < |users| {
        assert r[j] == users[j];
      }
    }
  }

  /** Shallow merge `{ ...u, ...p }`: present payload fields win, the others
      are kept. */
  function Merge(u: User, p: Patch): (r: User)
    ensures r.id == p.id
    ensures r.email == p.email.GetOr(u.email)
    ensures r.password == (if p.password.Some? then p.password else u.password)
    ensures r.firstName == p.firstName.GetOr(u.firstName)
    ensures r.lastName == p.lastName.GetOr(u.lastName)
    ensures r.phone == (if p.phone.Some? then p.phone else u.phone)
    ensures r.bio == (if p.bio.Some? then p.bio else u.bio)
    ensures r.avatar == p.avatar.GetOr(u.avatar)
    ensures r.role == p.role.GetOr(u.role)
  {
    User(p.id,
         p.email.GetOr(u.email),
         if p.password.Some? then p.password else u.password,
         p.firstName.GetOr(u.firstName),
         p.lastName.GetOr(u.lastName),
         if p.phone.Some? then p.phone else u.phone,
         if p.bio.Some? then p.bio else u.bio,
         p.avatar.GetOr(u.avatar),
         p.role.GetOr(u.role))
  }

  /** The payload that restates every field of `u`. */
  function PatchOf(u: User): Patch
  {
    Patch(u.id, Some(u.email), u.password, Some(u.firstName), Some(u.lastName), u.phone, u.bio,
          Some(u.avatar), Some(u.role))
  }

  /** Merging the same payload twice is merging it once. */
  lemma MergeIdempotent(u: User, p: Patch)
    ensures Merge(Merge(u, p), p) == Merge(u, p)
  {
  }

  /** Merging a record's own values changes nothing. */
  lemma MergeOwnValues(u: User)
    ensures Merge(u, PatchOf(u)) == u
  {
  }

  /** `updateUser`: the first record with the payload's id is replaced by the
      merge; an unknown id leaves the list as it is. */
  function UpdateUser(users: seq<User>, p: Patch): (r: seq<User>)
    ensures |r| == |users|
    ensures (forall j :: 0 <= j < |users| ==> users[j].id != p.id) ==> r == users
    ensures forall j :: 0 <= j < |users| && r[j] != users[j] ==>
              users[j].id == p.id && r[j] == Merge(users[j], p) &&
              forall k :: 0 <= k < j ==> users[k].id != p.id
    ensures forall j :: 0 <= j < |users| ==> r[j].id == users[j].id
  {
    match IndexOfId(users, p.id)
    case None => users
    case Some(i) => users[i := Merge(users[i], p)]
  }

  /** The first record with the payload's id does receive the merge. */
  lemma UpdateHitsFirstMatch(users: seq<User>, p: Patch, i: nat)
    requires i < |users| && users[i].id == p.id
    requires forall k :: 0 <= k < i ==> users[k].id != p.id
    ensures UpdateUser(users, p)[i] == Merge(users[i], p)
  {
  }

  /** Applying the same update twice is applying it once. */
  lemma UpdateIdempotent(users: seq<User>, p: Patch)
    ensures UpdateUser(UpdateUser(users, p), p) == UpdateUser(users, p)
  {
    var once := UpdateUser(users, p);
    match IndexOfId(users, p.id)
    case None =>
    case Some(i) =>
      assert once[i] == Merge(users[i], p);
      assert forall k :: 0 <= k < i ==> once[k] == users[k];
      assert IndexOfId(once, p.id) == Some(i);
      MergeIdempotent(users[i], p);
      assert once[i := Merge(once[i], p)] == once;
  }

  /** Updating the first record of an id with its own values changes nothing. */
  lemma UpdateWithOwnValues(users: seq<User>, i: nat)
    requires i < |users|
    requires forall k :: 0 <= k < i ==> users[k].id != users[i].id
    ensures UpdateUser(users, PatchOf(users[i])) == users
  {
    assert IndexOfId(users, users[i].id) == Some(i);
    MergeOwnValues(users[i]);
    assert users[i := users[i]] == users;
  }

  /** `deleteUser`: when the first record with the id is not an administrator,
      every record with that id is removed; otherwise, and for an unknown id,
      the list is unchanged. */
  function DeleteUser(users: seq<User>, id: string): (r: seq<User>)
    ensures FindById(users, id).None? ==> r == users
    ensures FindById(users, id).Some? && FindById(users, id).value.IsAdminRecord() ==> r == users
    ensures FindById(users, id).Some? && !FindById(users, id).value.IsAdminRecord() ==>
              (forall i :: 0 <= i < |r| ==> r[i].id != id) && IsSubsequence(r, users) &&
              (forall i :: 0 <= i < |users| && users[i].id != id ==> users[i] in r) &&
              |r| < |users| && |r| == |set i | 0 <= i < |users| && users[i].id != id|
  {
    var keeps := (u: User) => u.id != id;
    CountIsIndexSetSize(keeps, users);
    assert IndicesWhere(keeps, users) == set i | 0 <= i < |users| && users[i].id != id;
    match FindById(users, id)
    case None => users
    case Some(target) =>
      if target.role != ADMIN then Filter((u: User) => u.id != id, users) else users
  }

  /** With unique identifiers no administrator record is ever removed, and
      deletion removes at most one record. */
  lemma DeleteNeverRemovesAdmin(users: seq<User>, id: string)
    requires UniqueIds(users)
    ensures forall i :: 0 <= i < |users| && users[i].IsAdminRecord() ==> users[i] in DeleteUser(users, id)
    ensures |DeleteUser(users, id)| >= |users| - 1
  {
    var r := DeleteUser(users, id);
    match IndexOfId(users, id)
    case None =>
    case Some(k) =>
      if users[k].role != ADMIN {
        forall i | 0 <= i < |users| && users[i].IsAdminRecord()
          ensures users[i] in r
        {
          assert i != k;
          assert users[i].id != id;
        }
        OnlyOneCarriesId(users, id, k);
      }
  }

  /** Under unique identifiers, removing an id that sits at position `k`
      removes exactly one record. */
  lemma {:induction false} OnlyOneCarriesId(users: seq<User>, id: string, k: nat)
    requires UniqueIds(users)
    requires k < |users| && users[k].id == id
    ensures |Filter((u: User) => u.id != id, users)| == |users| - 1
    decreases |users|
  {
    var p := (u: User) => u.id != id;
    if k == 0 {
      FilterKeepsAll(p, users[1..]);
    } else {
      assert UniqueIds(users[1..]);
      OnlyOneCarriesId(users[1..], id, k - 1);
      assert users[0].id != id;
    }
  }

  /** The "first match" rule protects only the first record with an id: when
      identifiers repeat, an administrator sharing the id of an ordinary record
      is removed along with it. */
  lemma DuplicateIdsExposeAdmin()
    ensures var ordinary := User("7", "a@x.io", None, "A", "B", None, None, "", USER);
            var admin := User("7", "b@x.io", None, "C", "D", None, None, "", ADMIN);
            DeleteUser([ordinary, admin], "7") == []
  {
    var ordinary := User("7", "a@x.io", None, "A", "B", None, None, "", USER);
    var admin := User("7", "b@x.io", None, "C", "D", None, None, "", ADMIN);
    assert IndexOfId([ordinary, admin], "7") == Some(0);
  }

  /** The store actions. Time-based identifiers are supplied by the caller. */
  datatype Action =
    | CreateUserAction(payload: FormData, freshId: string)
    | UpdateUserAction(patch: Patch)
    | DeleteUserAction(id: string)
    | SetCurrentProfile(profile: Option<User>)
    | ClearCurrentProfile

  /** The reducer: the three list actions touch only the list, the two profile
      actions only the current-profile slot. */
  function Reduce(s: UsersState, a: Action): (r: UsersState)
    ensures r.loading == s.loading && r.error == s.error
    ensures a.SetCurrentProfile? ==> r.users == s.users && r.currentProfile == a.profile
    ensures a.ClearCurrentProfile? ==> r.users == s.users && r.currentProfile.None?
    ensures !a.SetCurrentProfile? && !a.ClearCurrentProfile? ==> r.currentProfile == s.currentProfile
  {
    match a
    case CreateUserAction(payload, freshId) => s.(users := CreateUser(s.users, payload, freshId))
    case UpdateUserAction(patch) => s.(users := UpdateUser(s.users, patch))
    case DeleteUserAction(id) => s.(users := DeleteUser(s.users, id))
    case SetCurrentProfile(profile) => s.(currentProfile := profile)
    case ClearCurrentProfile => s.(currentProfile := None)
  }

  /** Actions that keep identifiers unique when they start unique (creation
      with an id no record carries). */
  predicate FreshFor(s: UsersState, a: Action) {
    a.CreateUserAction? ==> forall i :: 0 <= i < |s.users| ==> s.users[i].id != a.freshId
  }

  /** Every reducer step keeps the identifiers unique. */
  lemma ReduceKeepsIdsUnique(s: UsersState, a: Action)
    requires UniqueIds(s.users)
    requires FreshFor(s, a)
    ensures UniqueIds(Reduce(s, a).users)
  {
    match a
    case CreateUserAction(payload, freshId) => CreateKeepsIdsUnique(s.users, payload, freshId);
    case UpdateUserAction(patch) =>
    case DeleteUserAction(id) =>
      var r := Reduce(s, a).users;
      if r != s.users {
        SubsequenceKeepsIdsUnique(r, s.users);
      }
    case SetCurrentProfile(_) =>
    case ClearCurrentProfile =>
  }

  lemma {:induction false} SubsequenceKeepsIdsUnique(a: seq<User>, b: seq<User>)
    requires IsSubsequence(a, b)
    requires UniqueIds(b)
    ensures UniqueIds(a)
    decreases |b|
  {
    if |a| > 0 {
      if a[0] == b[0] && IsSubsequence(a[1..], b[1..]) {
        SubsequenceKeepsIdsUnique(a[1..], b[1..]);
        SubsequenceMembers(a[1..], b[1..]);
        forall j | 0 < j < |a|
          ensures a[0].id != a[j].id
        {
          assert a[j] == a[1..][j - 1];
          var m :| 0 <= m < |b[1..]| && b[1..][m] == a[j];
          assert b[m + 1] == a[j];
        }
      } else {
        SubsequenceKeepsIdsUnique(a, b[1..]);
      }
    }
  }

  lemma {:induction false} SubsequenceMembers<T>(a: seq<T>, b: seq<T>)
    requires IsSubsequence(a, b)
    ensures forall i :: 0 <= i < |a| ==> exists m :: 0 <= m < |b| && b[m] == a[i]
    decreases |b|
  {
    if |a| > 0 {
      if a[0] == b[0] && IsSubsequence(a[1..], b[1..]) {
        SubsequenceMembers(a[1..], b[1..]);
        forall i | 1 <= i < |a|
          ensures exists m :: 0 <= m < |b| && b[m] == a[i]
        {
          assert a[i] == a[1..][i - 1];
          var m :| 0 <= m < |b[1..]| && b[1..][m] == a[i];
          assert b[m + 1] == a[i];
        }
        assert b[0] == a[0];
      } else {
        SubsequenceMembers(a, b[1..]);
        forall i | 0 <= i < |a|
          ensures exists m :: 0 <= m < |b| && b[m] == a[i]
        {
          var m :| 0 <= m < |b[1..]| && b[1..][m] == a[i];
          assert b[m + 1] == a[i];
        }
      }
    }
  }
}
