/** The in-memory (mock) user service: searched and paginated listing,
    lookup, creation, field-merging update and deletion. As with tickets,
    the module-level array becomes a sequence passed in and returned and
    the clock becomes the `now` parameter. */
module UsersService {
  import opened Types
  import opened Seqs
  import opened Text
  import opened Paging

  const DefaultPage: nat := 1
  const DefaultPageSize: nat := 10
  const NotFound: string := "User not found"

  // ----------------------------------------------------------- filtering

  /** The search matches the name or the email, ignoring case. */
  predicate MatchesSearch(u: User, search: string) {
    var q := LowerCase(search);
    Contains(LowerCase(u.name), q) || Contains(LowerCase(u.email), q)
  }

  /** `if (search)`: an absent or empty search does not filter. */
  predicate SearchActive(search: Option<string>) {
    search.Some? && search.value != ""
  }

  predicate SearchStage(search: Option<string>, u: User) {
    SearchActive(search) && MatchesSearch(u, search.value)
  }

  function FilterUsers(store: seq<User>, search: Option<string>): (r: seq<User>)
    ensures IsSubsequence(r, store)
    ensures forall i :: 0 <= i < |r| ==> r[i] in store && (!SearchActive(search) || MatchesSearch(r[i], search.value))
    ensures forall i :: 0 <= i < |store| && (!SearchActive(search) || MatchesSearch(store[i], search.value))
              ==> store[i] in r
    ensures !SearchActive(search) ==> r == store
  {
    if SearchActive(search) then Filter(store, (u: User) => SearchStage(search, u))
    else
      SubsequenceReflexive(store);
      store
  }

  // ---------------------------------------------------------- pagination

  /** `getUsers(page = 1, pageSize = 10, search?)`: the defaults apply only to
      an absent argument, so page 0 stays 0. Its window starts before the
      list and ends at 0, which `slice` turns into an empty page. */
  function GetUsers(store: seq<User>, page: Option<nat>, pageSize: Option<nat>, search: Option<string>)
    : (r: PaginatedResponse<User>)
    requires pageSize.None? || pageSize.value >= 1
    ensures r.page == (if page.Some? then page.value else DefaultPage)
    ensures r.pageSize == (if pageSize.Some? then pageSize.value else DefaultPageSize)
    ensures r.total == |FilterUsers(store, search)|
    ensures |r.data| <= r.pageSize
    ensures r.page == 0 ==> r.data == []
    ensures forall i :: 0 <= i < |r.data| ==>
              r.data[i] in store && (!SearchActive(search) || MatchesSearch(r.data[i], search.value))
    ensures r.pageSize >= 1
    ensures r.totalPages * r.pageSize >= r.total
    ensures r.totalPages == 0 || (r.totalPages - 1) * r.pageSize < r.total
  {
    var p := if page.Some? then page.value else DefaultPage;
    var size := if pageSize.Some? then pageSize.value else DefaultPageSize;
    var filtered := FilterUsers(store, search);
    if p == 0 then
      PaginatedResponse([], |filtered|, 0, size, CeilDiv(|filtered|, size))
    else
      var r := Paginate(filtered, p, size);
      assert forall i :: 0 <= i < |r.data| ==> r.data[i] in filtered;
      r
  }

  /** With page numbers from 1, the listing is the shared page window of the
      searched list: item `i` of page `p` is item `(p-1)*size + i` of the
      list. */
  lemma GetUsersIsWindow(store: seq<User>, page: nat, pageSize: nat, search: Option<string>)
    requires page >= 1 && pageSize >= 1
    ensures var r := GetUsers(store, Some(page), Some(pageSize), search);
      var all := FilterUsers(store, search);
      && |r.data| == (if PageStart(page, pageSize) >= |all| then 0
                      else Min(pageSize, |all| - PageStart(page, pageSize)))
      && forall i :: 0 <= i < |r.data| ==> r.data[i] == all[PageStart(page, pageSize) + i]
  {
  }

  // -------------------------------------------------------------- lookup

  /** `getUserById`: the first user with the id, or null. */
  function GetUserById(store: seq<User>, id: string): (r: Option<User>)
    ensures r.None? <==> forall i :: 0 <= i < |store| ==> store[i].id != id
    ensures r.Some? ==> r.value.id == id
    ensures r.Some? ==> exists i :: 0 <= i < |store| && store[i] == r.value
                           && forall j :: 0 <= j < i ==> store[j].id != id
  {
    Find(store, (u: User) => u.id == id)
  }

  // ------------------------------------------------------------ creation

  /** The fields a caller supplies; id and creation time are generated. */
  datatype UserDraft = UserDraft(name: string, email: string, role: Role, avatar: Option<string>)

  /** `createUser`: the new user, numbered one past the store's length, goes
      to the end of the store. */
  function CreateUser(store: seq<User>, draft: UserDraft, now: string): (r: (seq<User>, User))
    ensures r.0 == store + [r.1]
    ensures AllDigits(r.1.id) && DigitsValue(r.1.id) == |store| + 1
    ensures |r.1.id| > 1 ==> r.1.id[0] != '0'
    ensures r.1.id == NatToString(|store| + 1)
    ensures r.1.name == draft.name && r.1.email == draft.email
    ensures r.1.role == draft.role && r.1.avatar == draft.avatar
    ensures r.1.createdAt == now
  {
    var u := User(NatToString(|store| + 1), draft.name, draft.email, draft.role, draft.avatar, now);
    (store + [u], u)
  }

  /** The created user is what a lookup of its id returns, as long as no
      earlier user already carries that id. */
  lemma CreatedUserIsFound(store: seq<User>, draft: UserDraft, now: string)
    requires forall i :: 0 <= i < |store| ==> store[i].id != NatToString(|store| + 1)
    ensures var (s, u) := CreateUser(store, draft, now);
      GetUserById(s, u.id) == Some(u)
  {
    var (s, u) := CreateUser(store, draft, now);
    assert s[|store|] == u;
  }

  // -------------------------------------------------------------- update

  /** `Partial<User>`: a `Some` field is present in the update object;
      `avatar` is doubly optional because an explicit undefined clears it. */
  datatype UserPatch = UserPatch(
    id: Option<string>,
    name: Option<string>,
    email: Option<string>,
    role: Option<Role>,
    avatar: Option<Option<string>>,
    createdAt: Option<string>)

  const EmptyPatch := UserPatch(None, None, None, None, None, None)

  /** `{ ...user, ...updates }`: no timestamp is touched. */
  function Merge(u: User, p: UserPatch): (m: User)
    ensures m.id == Override(u.id, p.id) && m.name == Override(u.name, p.name)
    ensures m.email == Override(u.email, p.email) && m.role == Override(u.role, p.role)
    ensures m.avatar == Override(u.avatar, p.avatar) && m.createdAt == Override(u.createdAt, p.createdAt)
    ensures p == EmptyPatch ==> m == u
  {
    User(Override(u.id, p.id), Override(u.name, p.name), Override(u.email, p.email), Override(u.role, p.role),
      Override(u.avatar, p.avatar), Override(u.createdAt, p.createdAt))
  }

  /** `updateUser`: merge the update into the first user with the id, or
      fail when there is none. */
  function UpdateUser(store: seq<User>, id: string, p: UserPatch): (r: Result<(seq<User>, User)>)
    ensures r.Err? <==> forall i :: 0 <= i < |store| ==> store[i].id != id
    ensures r.Err? ==> r.message == NotFound
    ensures r.Ok? ==> |r.value.0| == |store|
    ensures r.Ok? ==> exists i :: 0 <= i < |store| && store[i].id == id
                        && (forall j :: 0 <= j < i ==> store[j].id != id)
                        && r.value.1 == Merge(store[i], p)
                        && r.value.0[i] == r.value.1
                        && (forall j :: 0 <= j < |store| && j != i ==> r.value.0[j] == store[j])
  {
    var i := FindIndex(store, (u: User) => u.id == id);
    if i == -1 then Err(NotFound)
    else
      var m := Merge(store[i], p);
      Ok((ReplaceAt(store, i, m), m))
  }

  /** An empty update of an existing user leaves the store as it was. */
  lemma EmptyUpdateIsIdentity(store: seq<User>, id: string)
    requires exists i :: 0 <= i < |store| && store[i].id == id
    ensures var r := UpdateUser(store, id, EmptyPatch);
      r.Ok? && r.value.0 == store && Some(r.value.1) == GetUserById(store, id)
  {
    var r := UpdateUser(store, id, EmptyPatch);
    var i := FindIndex(store, (u: User) => u.id == id);
    assert Merge(store[i], EmptyPatch) == store[i];
    assert r.value.0 == store;
  }

  /** A role change touches the role of that user and nothing else: its id
      still finds it, with the new role. */
  lemma RoleUpdateFrame(store: seq<User>, id: string, role: Role)
    requires exists i :: 0 <= i < |store| && store[i].id == id
    ensures var r := UpdateUser(store, id, EmptyPatch.(role := Some(role)));
      && r.Ok?
      && GetUserById(r.value.0, id) == Some(r.value.1)
      && r.value.1 == GetUserById(store, id).value.(role := role)
  {
    var r := UpdateUser(store, id, EmptyPatch.(role := Some(role)));
    var i := FindIndex(store, (u: User) => u.id == id);
    var s := r.value.0;
    assert s[i] == r.value.1 && s[i].id == id;
    assert forall j :: 0 <= j < i ==> s[j] == store[j];
    assert FindIndex(s, (u: User) => u.id == id) == i;
  }

  // ------------------------------------------------------------ deletion

  /** `deleteUser`: remove the first user with the id; no-op otherwise. */
  function DeleteUser(store: seq<User>, id: string): (r: seq<User>)
    ensures (forall i :: 0 <= i < |store| ==> store[i].id != id) ==> r == store
    ensures (exists i :: 0 <= i < |store| && store[i].id == id) ==>
      exists i :: 0 <= i < |store| && store[i].id == id
        && (forall j :: 0 <= j < i ==> store[j].id != id)
        && r == store[..i] + store[i + 1..]
  {
    var i := FindIndex(store, (u: User) => u.id == id);
    if i == -1 then store else RemoveAt(store, i)
  }

  /** Deleting one id leaves the lookup of every other id unchanged. */
  lemma DeleteKeepsOtherLookups(store: seq<User>, id: string, other: string)
    requires other != id
    ensures GetUserById(DeleteUser(store, id), other) == GetUserById(store, other)
  {
    var i := FindIndex(store, (u: User) => u.id == id);
    if i != -1 {
      FindAfterRemove(store, i, (u: User) => u.id == other);
    }
  }
}
