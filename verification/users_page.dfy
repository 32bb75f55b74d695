/** The user management page: who may open it, what it offers each role
    and each row, the edit toggle, the delete confirmation, and the effect
    of its two mutations on the user store. */
module UsersPage {
  import opened Types
  import opened Text
  import opened Paging
  import opened Rbac
  import RoleGuard
  import UsersService
  import Sidebar

  // ---------------------------------------------------------------- guard

  /** The page sits behind a guard on viewing users: administrators and
      staff open it, everyone else gets the access-denied card. */
  function Guard(user: Option<User>): (o: RoleGuard.Outcome)
    ensures o == RoleGuard.RenderChildren <==> user.Some? && (user.value.role == Admin || user.value.role == Staff)
    ensures o != RoleGuard.RenderChildren ==> o == RoleGuard.AccessDenied
  {
    CanAccessMatchesReference(Admin, Users, View);
    CanAccessMatchesReference(Staff, Users, View);
    CanAccessMatchesReference(Viewer, Users, View);
    RoleGuard.Decide(user, Users, Some(View), None)
  }

  // -------------------------------------------------------------- listing

  /** The page asks for `getUsers()` with every argument left out. */
  function Listing(store: seq<User>): (r: PaginatedResponse<User>)
    ensures r.page == 1 && r.pageSize == 10 && r.total == |store|
  {
    UsersService.GetUsers(store, None, None, None)
  }

  /** So it shows the first ten users of the store, in store order, and the
      caption counts those against the whole store. */
  lemma ListingShowsFirstTen(store: seq<User>)
    ensures |Listing(store).data| == Min(10, |store|)
    ensures forall i :: 0 <= i < |Listing(store).data| ==> Listing(store).data[i] == store[i]
  {
    UsersService.GetUsersIsWindow(store, 1, 10, None);
    assert UsersService.GetUsers(store, Some(1), Some(10), None) == Listing(store);
  }

  /** The avatar of a row shows the first character of every word of the
      name, neither upper-cased nor cut to two, unlike the sidebar's. */
  function AvatarText(name: string): (r: string)
    ensures r == Sidebar.WordStarts(name, true)
  {
    Sidebar.FirstCharsAreWordStarts(name);
    Sidebar.FirstChars(Split(name, ' '))
  }

  // --------------------------------------------------------------- offers

  /** What the page offers as a whole. */
  datatype Offers = Offers(createButton: bool, emptyStateAction: bool, actionsColumn: bool)

  function OffersFor(role: Option<Role>): (o: Offers)
    ensures o.createButton <==> CanAccess(role, Users, Create)
    ensures o.emptyStateAction <==> CanAccess(role, Users, Create)
    ensures o.actionsColumn <==> CanAccess(role, Users, Update) || CanAccess(role, Users, Delete)
  {
    var canCreate := CanAccess(role, Users, Create);
    Offers(canCreate, canCreate, CanAccess(role, Users, Update) || CanAccess(role, Users, Delete))
  }

  /** What one row offers: the role selector in place of the badge, the
      edit toggle, and the delete button. */
  datatype RowOffers = RowOffers(roleSelector: bool, editButton: bool, deleteButton: bool)

  /** Nobody is offered the deletion of their own account. */
  function RowOffersFor(current: User, editingId: Option<string>, row: User): (o: RowOffers)
    ensures o.roleSelector <==> CanAccess(Some(current.role), Users, Update) && editingId == Some(row.id)
    ensures o.editButton <==> CanAccess(Some(current.role), Users, Update)
    ensures o.deleteButton <==> CanAccess(Some(current.role), Users, Delete) && row.id != current.id
  {
    var canUpdate := CanAccess(Some(current.role), Users, Update);
    RowOffers(canUpdate && editingId == Some(row.id), canUpdate,
      CanAccess(Some(current.role), Users, Delete) && row.id != current.id)
  }

  /** A row's buttons only appear inside the actions column. */
  lemma RowButtonsNeedColumn(current: User, editingId: Option<string>, row: User)
    ensures var o := RowOffersFor(current, editingId, row);
      o.editButton || o.deleteButton ==> OffersFor(Some(current.role)).actionsColumn
  {
  }

  /** Administrators get every control, staff only the read-only list. */
  lemma OffersByRole()
    ensures OffersFor(Some(Admin)) == Offers(true, true, true)
    ensures OffersFor(Some(Staff)) == Offers(false, false, false)
    ensures OffersFor(Some(Viewer)) == Offers(false, false, false)
  {
    CanAccessMatchesReference(Admin, Users, Create);
    CanAccessMatchesReference(Admin, Users, Update);
    CanAccessMatchesReference(Admin, Users, Delete);
    CanAccessMatchesReference(Staff, Users, Create);
    CanAccessMatchesReference(Staff, Users, Update);
    CanAccessMatchesReference(Staff, Users, Delete);
    CanAccessMatchesReference(Viewer, Users, Create);
    CanAccessMatchesReference(Viewer, Users, Update);
    CanAccessMatchesReference(Viewer, Users, Delete);
  }

  /** An administrator may delete every row but their own. */
  lemma AdminDeletesOthersOnly(current: User, editingId: Option<string>, row: User)
    requires current.role == Admin
    ensures RowOffersFor(current, editingId, row).deleteButton <==> row.id != current.id
  {
    CanAccessMatchesReference(Admin, Users, Delete);
  }

  // ------------------------------------------------------------ edit toggle

  /** The edit button of a row: open that row's selector, or close it when
      it is the one open. */
  function ToggleEdit(editingId: Option<string>, rowId: string): (r: Option<string>)
    ensures r == Some(rowId) <==> editingId != Some(rowId)
    ensures r.None? <==> editingId == Some(rowId)
  {
    if editingId == Some(rowId) then None else Some(rowId)
  }

  /** Opening one row closes whichever other row was open, so at most one
      selector shows at a time. */
  lemma OneSelectorAtATime(current: User, editingId: Option<string>, rowId: string, a: User, b: User)
    requires a.id != b.id
    ensures var e := ToggleEdit(editingId, rowId);
      !(RowOffersFor(current, e, a).roleSelector && RowOffersFor(current, e, b).roleSelector)
  {
  }

  // ------------------------------------------------------------ the page

  /** The page's own state: the row being edited and the user awaiting a
      delete confirmation. */
  datatype PageState = PageState(editingId: Option<string>, deleteId: Option<string>)

  const Initial := PageState(None, None)

  /** An interaction; the mutations complete within the step. */
  datatype Event =
    | EditClicked(rowId: string)
    | DeleteClicked(rowId: string)
    | DialogDismissed
    | DeleteConfirmed
    | RoleChosen(rowId: string, role: Role)

  /** The page state and store after one event, for the signed-in user
      `current`. A click on a control that is not shown changes nothing.
      The mock deletion never fails; a role change fails when the user is
      gone, and then only the error toast shows. */
  function Step(current: User, st: PageState, store: seq<User>, e: Event): (r: (PageState, seq<User>))
    ensures !e.DeleteConfirmed? && !e.RoleChosen? ==> r.1 == store
    ensures |r.1| <= |store|
    ensures r.0.deleteId.Some? && r.0.deleteId != st.deleteId ==>
      r.0.deleteId != Some(current.id) && CanAccess(Some(current.role), Users, Delete)
    ensures r.0.editingId.Some? && r.0.editingId != st.editingId ==>
      CanAccess(Some(current.role), Users, Update)
    ensures r.1 != store ==> CanAccess(Some(current.role), Users, Update) || st.deleteId.Some?
  {
    match e
    case EditClicked(id) =>
      if CanAccess(Some(current.role), Users, Update)
      then (st.(editingId := ToggleEdit(st.editingId, id)), store) else (st, store)
    case DeleteClicked(id) =>
      if CanAccess(Some(current.role), Users, Delete) && id != current.id
      then (st.(deleteId := Some(id)), store) else (st, store)
    case DialogDismissed => (st.(deleteId := None), store)
    case DeleteConfirmed =>
      if st.deleteId.None? then (st, store)
      else (st.(deleteId := None), UsersService.DeleteUser(store, st.deleteId.value))
    case RoleChosen(id, role) =>
      if !(CanAccess(Some(current.role), Users, Update) && st.editingId == Some(id)) then (st, store)
      else
        var u := UsersService.UpdateUser(store, id, UsersService.EmptyPatch.(role := Some(role)));
        if u.Ok? then (st.(editingId := None), u.value.0) else (st, store)
  }

  function Run(current: User, st: PageState, store: seq<User>, events: seq<Event>): (r: (PageState, seq<User>))
    ensures |r.1| <= |store|
    ensures (forall i :: 0 <= i < |events| ==> !events[i].DeleteConfirmed? && !events[i].RoleChosen?) ==> r.1 == store
    decreases |events|
  {
    if |events| == 0 then (st, store)
    else
      var (st2, store2) := Step(current, st, store, events[0]);
      Run(current, st2, store2, events[1..])
  }

  // ------------------------------------------------------ no self-deletion

  predicate HasUser(store: seq<User>, id: string) {
    exists i :: 0 <= i < |store| && store[i].id == id
  }

  /** The current user is in the store and is not the one awaiting a delete
      confirmation. */
  predicate SelfSafe(current: User, st: PageState, store: seq<User>) {
    st.deleteId != Some(current.id) && HasUser(store, current.id)
  }

  /** Deleting another id keeps every user with this id. */
  lemma DeleteKeepsUser(store: seq<User>, id: string, other: string)
    requires other != id && HasUser(store, other)
    ensures HasUser(UsersService.DeleteUser(store, id), other)
  {
    UsersService.DeleteKeepsOtherLookups(store, id, other);
    var found := UsersService.GetUserById(UsersService.DeleteUser(store, id), other);
    assert found.Some?;
  }

  /** A role change keeps every id in its place. */
  lemma RoleChangeKeepsIds(store: seq<User>, id: string, role: Role, other: string)
    requires HasUser(store, other)
    ensures var u := UsersService.UpdateUser(store, id, UsersService.EmptyPatch.(role := Some(role)));
      u.Ok? ==> HasUser(u.value.0, other)
  {
    var u := UsersService.UpdateUser(store, id, UsersService.EmptyPatch.(role := Some(role)));
    if u.Ok? {
      var j :| 0 <= j < |store| && store[j].id == other;
      var i :| 0 <= i < |store| && store[i].id == id
               && (forall k :: 0 <= k < i ==> store[k].id != id)
               && u.value.1 == UsersService.Merge(store[i], UsersService.EmptyPatch.(role := Some(role)))
               && u.value.0[i] == u.value.1
               && (forall k :: 0 <= k < |store| && k != i ==> u.value.0[k] == store[k]);
      assert u.value.0[j].id == other;
    }
  }

  lemma StepKeepsSelfSafe(current: User, st: PageState, store: seq<User>, e: Event)
    requires SelfSafe(current, st, store)
    ensures var (st2, store2) := Step(current, st, store, e); SelfSafe(current, st2, store2)
  {
    match e
    case DeleteConfirmed =>
      if st.deleteId.Some? {
        DeleteKeepsUser(store, st.deleteId.value, current.id);
      }
    case RoleChosen(id, role) =>
      RoleChangeKeepsIds(store, id, role, current.id);
    case _ =>
  }

  /** Whatever the signed-in user does on the page, their own account stays
      in the store. */
  lemma {:induction false} NeverDeletesSelf(current: User, st: PageState, store: seq<User>, events: seq<Event>)
    requires SelfSafe(current, st, store)
    ensures var (st2, store2) := Run(current, st, store, events); SelfSafe(current, st2, store2)
    decreases |events|
  {
    if |events| > 0 {
      StepKeepsSelfSafe(current, st, store, events[0]);
      var (st1, store1) := Step(current, st, store, events[0]);
      NeverDeletesSelf(current, st1, store1, events[1..]);
    }
  }

  /** From a fresh page, the signed-in user's account survives any session. */
  lemma FreshPageKeepsSelf(current: User, store: seq<User>, events: seq<Event>)
    requires HasUser(store, current.id)
    ensures HasUser(Run(current, Initial, store, events).1, current.id)
  {
    NeverDeletesSelf(current, Initial, store, events);
  }

  // -------------------------------------------------------- read-only roles

  /** For staff and viewers nothing on the page changes either its state or
      the store. */
  lemma {:induction false} ReadOnlyUnlessAdmin(current: User, store: seq<User>, events: seq<Event>)
    requires current.role != Admin
    ensures Run(current, Initial, store, events) == (Initial, store)
    decreases |events|
  {
    CanAccessMatchesReference(current.role, Users, Update);
    CanAccessMatchesReference(current.role, Users, Delete);
    if |events| > 0 {
      assert Step(current, Initial, store, events[0]) == (Initial, store);
      ReadOnlyUnlessAdmin(current, store, events[1..]);
    }
  }

  /** A successful role change closes the selector and gives the row its new
      role, leaving every other field as it was. */
  lemma RoleChangeApplies(current: User, st: PageState, store: seq<User>, id: string, role: Role)
    requires current.role == Admin && st.editingId == Some(id) && HasUser(store, id)
    ensures var (st2, store2) := Step(current, st, store, RoleChosen(id, role));
      && st2.editingId.None?
      && UsersService.GetUserById(store2, id) == Some(UsersService.GetUserById(store, id).value.(role := role))
  {
    var u := UsersService.UpdateUser(store, id, UsersService.EmptyPatch.(role := Some(role)));
    assert u.Ok? && UsersService.GetUserById(u.value.0, id) == Some(u.value.1)
      && u.value.1 == UsersService.GetUserById(store, id).value.(role := role) by {
      UsersService.RoleUpdateFrame(store, id, role);
    }
    CanAccessMatchesReference(Admin, Users, Update);
    StepOnRoleChosen(current, st, store, id, role);
  }

  lemma StepOnRoleChosen(current: User, st: PageState, store: seq<User>, id: string, role: Role)
    requires CanAccess(Some(current.role), Users, Update) && st.editingId == Some(id)
    ensures var u := UsersService.UpdateUser(store, id, UsersService.EmptyPatch.(role := Some(role)));
      Step(current, st, store, RoleChosen(id, role)) == (if u.Ok? then (st.(editingId := None), u.value.0) else (st, store))
  {
  }
}
