/** The user list page: case-insensitive search over names and email, the role
    filter, and the counts in its header. */
module UserList {
  import opened Wrappers
  import opened Seqs
  import opened Text
  import opened Users
  import Permissions

  /** The term occurs, ignoring ASCII case, in the first name, the last name or
      the email. */
  predicate MatchesSearch(u: User, term: string) {
    Includes(Lower(u.firstName), Lower(term)) ||
    Includes(Lower(u.lastName), Lower(term)) ||
    Includes(Lower(u.email), Lower(term))
  }

  /** The role filter: "all" keeps everyone, any other value compares exactly. */
  predicate MatchesRole(u: User, filterRole: string) {
    filterRole == "all" || u.role == filterRole
  }

  /** `filteredUsers`: the matching records in directory order. */
  function FilterUsers(users: seq<User>, term: string, filterRole: string): (r: seq<User>)
    ensures IsSubsequence(r, users)
    ensures |r| <= |users|
    ensures forall i :: 0 <= i < |r| ==> r[i] in users && MatchesSearch(r[i], term) && MatchesRole(r[i], filterRole)
    ensures forall i :: 0 <= i < |users| && MatchesSearch(users[i], term) && MatchesRole(users[i], filterRole) ==>
              users[i] in r
  {
    Filter((u: User) => MatchesSearch(u, term) && MatchesRole(u, filterRole), users)
  }

  /** An empty search with the "all" filter lists everyone. */
  lemma EmptySearchListsEveryone(users: seq<User>)
    ensures FilterUsers(users, "", "all") == users
  {
    var p := (u: User) => MatchesSearch(u, "") && MatchesRole(u, "all");
    forall i | 0 <= i < |users|
      ensures p(users[i])
    {
      IncludesEmpty(Lower(users[i].firstName));
    }
    FilterKeepsAll(p, users);
  }

  /** Searching ignores the case of the search term. */
  lemma SearchIgnoresTermCase(users: seq<User>, term: string, filterRole: string)
    ensures FilterUsers(users, term, filterRole) == FilterUsers(users, Lower(term), filterRole)
  {
    LowerIdempotent(term);
    var p := (u: User) => MatchesSearch(u, term) && MatchesRole(u, filterRole);
    var q := (u: User) => MatchesSearch(u, Lower(term)) && MatchesRole(u, filterRole);
    forall i | 0 <= i < |users|
      ensures p(users[i]) == q(users[i])
    {
      assert MatchesSearch(users[i], term) == MatchesSearch(users[i], Lower(term));
    }
    FilterCongruent(p, q, users);
  }

  /** The header: "Showing n of m users", and the create link for administrators. */
  datatype ListHeader = ListHeader(shown: nat, total: nat, showCreateLink: bool)

  function Header(users: seq<User>, current: Option<User>, term: string, filterRole: string): (h: ListHeader)
    ensures h.shown <= h.total && h.total == |users|
    ensures h.shown == |FilterUsers(users, term, filterRole)|
    ensures h.shown == |set i | 0 <= i < |users| && MatchesSearch(users[i], term) && MatchesRole(users[i], filterRole)|
    ensures h.showCreateLink <==> Permissions.CanCreateUser(current)
    ensures filterRole == "all" && term == "" ==> h.shown == h.total
  {
    var shown := |FilterUsers(users, term, filterRole)|;
    var keeps := (u: User) => MatchesSearch(u, term) && MatchesRole(u, filterRole);
    CountIsIndexSetSize(keeps, users);
    assert IndicesWhere(keeps, users) ==
           set i | 0 <= i < |users| && MatchesSearch(users[i], term) && MatchesRole(users[i], filterRole);
    assert filterRole == "all" && term == "" ==> shown == |users| by {
      if filterRole == "all" && term == "" {
        EmptySearchListsEveryone(users);
      }
    }
    ListHeader(shown, |users|, current.Some? && current.value.role == ADMIN)
  }
}
