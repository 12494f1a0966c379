/** The user record of the single-page user manager and the lookups over the
    ordered user directory that several components share. */
module Users {
  import opened Wrappers
  import opened Seqs

  /** The two role names the application knows. A role is stored as a plain
      string, so a record may carry any other name as well. */
  const ADMIN: string := "admin"
  const USER: string := "user"

  /** A stored user record. `password`, `phone` and `bio` may be absent from
      the object: the session's copy of a record has no `password` key. */
  datatype User = User(
    id: string,
    email: string,
    password: Option<string>,
    firstName: string,
    lastName: string,
    phone: Option<string>,
    bio: Option<string>,
    avatar: string,
    role: string)
  {
    predicate IsAdminRecord() {
      role == ADMIN
    }
  }

  /** The seven inputs of the user form, all strings. Its submission is also the
      payload of the create-user action. */
  datatype FormData = FormData(
    firstName: string,
    lastName: string,
    email: string,
    phone: string,
    bio: string,
    role: string,
    password: string)

  /** Record identifiers never repeat within the directory. */
  ghost predicate UniqueIds(users: seq<User>) {
    forall i, j :: 0 <= i < j < |users| ==> users[i].id != users[j].id
  }

  /** `users.findIndex(u => u.id === id)`. */
  function IndexOfId(users: seq<User>, id: string): (r: Option<nat>)
    ensures r.Some? ==> r.value < |users| && users[r.value].id == id &&
                        forall j :: 0 <= j < r.value ==> users[j].id != id
    ensures r.None? <==> forall j :: 0 <= j < |users| ==> users[j].id != id
  {
    FindFirst((u: User) => u.id == id, users)
  }

  /** `users.find(u => u.id === id)`: the first record carrying the id. */
  function FindById(users: seq<User>, id: string): (r: Option<User>)
    ensures r.Some? ==> r.value in users && r.value.id == id
    ensures r.Some? ==> exists k :: 0 <= k < |users| && users[k] == r.value &&
                                    forall j :: 0 <= j < k ==> users[j].id != id
    ensures r.None? <==> forall j :: 0 <= j < |users| ==> users[j].id != id
  {
    match IndexOfId(users, id)
    case None => None
    case Some(i) => Some(users[i])
  }

  /** With unique identifiers, the record found for an id is the only one
      carrying it. */
  lemma FindByIdUnique(users: seq<User>, i: nat)
    requires UniqueIds(users)
    requires i < |users|
    ensures FindById(users, users[i].id) == Some(users[i])
  {
    var k := IndexOfId(users, users[i].id);
    assert k.Some?;
  }

  /** The two demonstration records the directory starts with when nothing is
      persisted. */
  const DemoUsers: seq<User> := [
    User("1", "admin@example.com", Some("admin123"), "Admin", "User", Some("+1234567890"), Some("System Administrator"),
         "https://ui-avatars.com/api/?name=Admin+User&background=4f46e5&color=fff", ADMIN),
    User("2", "john.doe@example.com", Some("user123"), "John", "Doe", Some("+1234567891"), Some("Software Developer"),
         "https://ui-avatars.com/api/?name=John+Doe&background=10b981&color=fff", USER)
  ]

  lemma DemoUsersWellFormed()
    ensures UniqueIds(DemoUsers)
    ensures |DemoUsers| == 2 && DemoUsers[0].IsAdminRecord() && !DemoUsers[1].IsAdminRecord()
  {
  }
}
