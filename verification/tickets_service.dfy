/** The in-memory (mock) ticket service: filtered and paginated listing,
    lookup, creation, field-merging update, deletion, and the comment
    thread of a ticket. The mutable module-level arrays become sequences
    passed in and returned; the clock becomes the `now` parameter. */
module TicketsService {
  import opened Types
  import opened Seqs
  import opened Text
  import opened Paging

  const DefaultPage: nat := 1
  const DefaultPageSize: nat := 10
  const NotFound: string := "Ticket not found"

  // ----------------------------------------------------------- filtering

  /** The search matches the title or the id, ignoring case. */
  predicate MatchesSearch(t: Ticket, search: string) {
    var q := LowerCase(search);
    Contains(LowerCase(t.title), q) || Contains(LowerCase(t.id), q)
  }

  /** `if (filters.search)`: an absent or empty search does not filter. */
  predicate SearchActive(f: TicketFilters) {
    f.search.Some? && f.search.value != ""
  }

  /** An absent status or `'all'` does not filter. */
  predicate StatusActive(f: TicketFilters) {
    f.status.Some? && f.status.value.StatusIs?
  }

  predicate PriorityActive(f: TicketFilters) {
    f.priority.Some? && f.priority.value.PriorityIs?
  }

  /** The test each stage applies once its filter is active. */
  predicate SearchStage(f: TicketFilters, t: Ticket) {
    SearchActive(f) && MatchesSearch(t, f.search.value)
  }

  predicate StatusStage(f: TicketFilters, t: Ticket) {
    StatusActive(f) && t.status == f.status.value.status
  }

  predicate PriorityStage(f: TicketFilters, t: Ticket) {
    PriorityActive(f) && t.priority == f.priority.value.priority
  }

  /** A ticket satisfies every active filter; with none active, every
      ticket passes. */
  function Passes(f: TicketFilters, t: Ticket): (b: bool)
    ensures !SearchActive(f) && !StatusActive(f) && !PriorityActive(f) ==> b
    ensures b && f.search.Some? && f.search.value != "" ==> MatchesSearch(t, f.search.value)
  {
    && (SearchActive(f) ==> MatchesSearch(t, f.search.value))
    && (StatusActive(f) ==> t.status == f.status.value.status)
    && (PriorityActive(f) ==> t.priority == f.priority.value.priority)
  }

  /** The three filter stages of the listing, applied one after another. */
  function FilterTickets(store: seq<Ticket>, f: TicketFilters): (r: seq<Ticket>)
    ensures r == Filter(store, (t: Ticket) => Passes(f, t))
    ensures IsSubsequence(r, store)
    ensures forall i :: 0 <= i < |r| ==> Passes(f, r[i]) && r[i] in store
    ensures forall i :: 0 <= i < |store| && Passes(f, store[i]) ==> store[i] in r
    ensures !SearchActive(f) && !StatusActive(f) && !PriorityActive(f) ==> r == store
  {
    var bySearch := if SearchActive(f) then Filter(store, (t: Ticket) => SearchStage(f, t)) else store;
    var byStatus := if StatusActive(f) then Filter(bySearch, (t: Ticket) => StatusStage(f, t)) else bySearch;
    var byPriority := if PriorityActive(f) then Filter(byStatus, (t: Ticket) => PriorityStage(f, t)) else byStatus;
    StagesAreOneFilter(store, f);
    byPriority
  }

  /** The staged filtering equals one filter by the conjunction of the
      stages. */
  lemma StagesAreOneFilter(store: seq<Ticket>, f: TicketFilters)
    ensures
      var bySearch := if SearchActive(f) then Filter(store, (t: Ticket) => SearchStage(f, t)) else store;
      var byStatus := if StatusActive(f) then Filter(bySearch, (t: Ticket) => StatusStage(f, t)) else bySearch;
      var byPriority := if PriorityActive(f) then Filter(byStatus, (t: Ticket) => PriorityStage(f, t)) else byStatus;
      byPriority == Filter(store, (t: Ticket) => Passes(f, t))
  {
    var s1 := (t: Ticket) => !SearchActive(f) || SearchStage(f, t);
    var s2 := (t: Ticket) => !StatusActive(f) || StatusStage(f, t);
    var s3 := (t: Ticket) => !PriorityActive(f) || PriorityStage(f, t);
    var s12 := (t: Ticket) => s1(t) && s2(t);
    FilterStage(store, SearchActive(f), (t: Ticket) => SearchStage(f, t), s1);
    var a := Filter(store, s1);
    FilterStage(a, StatusActive(f), (t: Ticket) => StatusStage(f, t), s2);
    var b := Filter(a, s2);
    FilterStage(b, PriorityActive(f), (t: Ticket) => PriorityStage(f, t), s3);
    FilterFilter(store, s1, s2, s12);
    FilterFilter(store, s12, s3, (t: Ticket) => Passes(f, t));
  }

  // ---------------------------------------------------------- pagination

  /** `filters.page || 1`: absent or zero selects the first page. */
  function ResolvedPage(f: TicketFilters): (p: nat)
    ensures p >= 1
    ensures f.page.Some? && f.page.value != 0 ==> p == f.page.value
    ensures f.page.None? || f.page.value == 0 ==> p == DefaultPage
  {
    if f.page.None? || f.page.value == 0 then DefaultPage else f.page.value
  }

  /** `filters.pageSize || 10`. */
  function ResolvedPageSize(f: TicketFilters): (n: nat)
    ensures n >= 1
    ensures f.pageSize.Some? && f.pageSize.value != 0 ==> n == f.pageSize.value
    ensures f.pageSize.None? || f.pageSize.value == 0 ==> n == DefaultPageSize
  {
    if f.pageSize.None? || f.pageSize.value == 0 then DefaultPageSize else f.pageSize.value
  }

  /** `getTickets`: one page of the filtered store. */
  function GetTickets(store: seq<Ticket>, f: TicketFilters): (r: PaginatedResponse<Ticket>)
    ensures r.page == ResolvedPage(f) && r.pageSize == ResolvedPageSize(f)
    ensures r.total == |FilterTickets(store, f)|
    ensures |r.data| <= r.pageSize
    ensures forall i :: 0 <= i < |r.data| ==> Passes(f, r.data[i]) && r.data[i] in store
    ensures r.totalPages * r.pageSize >= r.total
    ensures r.totalPages == 0 || (r.totalPages - 1) * r.pageSize < r.total
    ensures r.totalPages == 0 <==> r.total == 0
    ensures |r.data| == (if PageStart(r.page, r.pageSize) >= r.total then 0
                         else Min(r.pageSize, r.total - PageStart(r.page, r.pageSize)))
    ensures forall i :: 0 <= i < |r.data| ==>
              PageStart(r.page, r.pageSize) + i < r.total
              && r.data[i] == FilterTickets(store, f)[PageStart(r.page, r.pageSize) + i]
  {
    var filtered := FilterTickets(store, f);
    var r := Paginate(filtered, ResolvedPage(f), ResolvedPageSize(f));
    forall i | 0 <= i < |r.data| ensures Passes(f, r.data[i]) && r.data[i] in store {
      assert r.data[i] == filtered[PageStart(ResolvedPage(f), ResolvedPageSize(f)) + i];
    }
    r
  }

  /** The total does not depend on the page asked for. */
  lemma TotalIndependentOfPage(store: seq<Ticket>, f: TicketFilters, page: nat)
    ensures GetTickets(store, f.(page := Some(page))).total == GetTickets(store, f).total
    ensures GetTickets(store, f.(page := Some(page))).totalPages == GetTickets(store, f).totalPages
  {
    var g := f.(page := Some(page));
    assert Filter(store, (t: Ticket) => Passes(g, t)) == Filter(store, (t: Ticket) => Passes(f, t)) by {
      FilterExtensional(store, (t: Ticket) => Passes(g, t), (t: Ticket) => Passes(f, t));
    }
  }

  // -------------------------------------------------------------- lookup

  /** `getTicketById`: the first ticket with the id, or null. */
  function GetTicketById(store: seq<Ticket>, id: string): (r: Option<Ticket>)
    ensures r.None? <==> forall i :: 0 <= i < |store| ==> store[i].id != id
    ensures r.Some? ==> r.value.id == id
    ensures r.Some? ==> exists i :: 0 <= i < |store| && store[i] == r.value
                           && forall j :: 0 <= j < i ==> store[j].id != id
  {
    Find(store, (t: Ticket) => t.id == id)
  }

  // ------------------------------------------------------------ creation

  /** The fields a caller supplies; id and timestamps are generated. */
  datatype TicketDraft = TicketDraft(
    title: string,
    description: string,
    status: Status,
    priority: Priority,
    assignee: Option<User>)

  /** `TKT-` and the number zero-padded to three digits. The id names the
      number it was made from. */
  function TicketId(n: nat): (id: string)
    ensures StartsWith(id, "TKT-") && |id| >= 7
    ensures AllDigits(id[4..]) && DigitsValue(id[4..]) == n
  {
    PrefixedNumber("TKT-", n);
    "TKT-" + PadStart(NatToString(n), 3, '0')
  }

  /** A four-character prefix and the zero-padded number: the digits after
      the prefix denote the number. */
  lemma PrefixedNumber(prefix: string, n: nat)
    requires |prefix| == 4
    ensures var id := prefix + PadStart(NatToString(n), 3, '0');
      StartsWith(id, prefix) && |id| >= 7 && AllDigits(id[4..]) && DigitsValue(id[4..]) == n
  {
    var digits := PadStart(NatToString(n), 3, '0');
    var id := prefix + digits;
    assert id[4..] == digits;
    assert id[..4] == prefix;
    PaddedNumberValue(n, 3);
  }

  /** `createTicket`: the new ticket goes to the front of the store. */
  function CreateTicket(store: seq<Ticket>, draft: TicketDraft, now: string): (r: (seq<Ticket>, Ticket))
    ensures r.0 == [r.1] + store
    ensures r.1.id == TicketId(|store| + 1)
    ensures r.1.title == draft.title && r.1.description == draft.description
    ensures r.1.status == draft.status && r.1.priority == draft.priority
    ensures r.1.assignee == draft.assignee
    ensures r.1.createdAt == now && r.1.updatedAt == now
  {
    var t := Ticket(TicketId(|store| + 1), draft.title, draft.description, draft.status,
      draft.priority, draft.assignee, now, now);
    ([t] + store, t)
  }

  /** The created ticket is what a lookup of its id returns. */
  lemma CreatedTicketIsFound(store: seq<Ticket>, draft: TicketDraft, now: string)
    ensures var (s, t) := CreateTicket(store, draft, now);
      GetTicketById(s, t.id) == Some(t)
  {
  }

  // -------------------------------------------------------------- update

  /** `Partial<Ticket>`: a `Some` field is present in the update object.
      `assignee` is doubly optional because spreading a present but
      undefined assignee clears it. */
  datatype TicketPatch = TicketPatch(
    id: Option<string>,
    title: Option<string>,
    description: Option<string>,
    status: Option<Status>,
    priority: Option<Priority>,
    assignee: Option<Option<User>>,
    createdAt: Option<string>,
    updatedAt: Option<string>)

  const EmptyPatch := TicketPatch(None, None, None, None, None, None, None, None)

  /** `{ ...ticket, ...updates, updatedAt: now }`. */
  function Merge(t: Ticket, u: TicketPatch, now: string): (m: Ticket)
    ensures m.id == Override(t.id, u.id) && m.title == Override(t.title, u.title)
    ensures m.description == Override(t.description, u.description)
    ensures m.status == Override(t.status, u.status) && m.priority == Override(t.priority, u.priority)
    ensures m.assignee == Override(t.assignee, u.assignee)
    ensures m.createdAt == Override(t.createdAt, u.createdAt)
    ensures m.updatedAt == now
    ensures u == EmptyPatch ==> m == t.(updatedAt := now)
  {
    Ticket(Override(t.id, u.id), Override(t.title, u.title), Override(t.description, u.description),
      Override(t.status, u.status), Override(t.priority, u.priority), Override(t.assignee, u.assignee),
      Override(t.createdAt, u.createdAt), now)
  }

  /** `updateTicket`: merge the update into the first ticket with the id,
      or fail when there is none. */
  function UpdateTicket(store: seq<Ticket>, id: string, u: TicketPatch, now: string): (r: Result<(seq<Ticket>, Ticket)>)
    ensures r.Err? <==> forall i :: 0 <= i < |store| ==> store[i].id != id
    ensures r.Err? ==> r.message == NotFound
    ensures r.Ok? ==> |r.value.0| == |store|
    ensures r.Ok? ==> exists i :: 0 <= i < |store| && store[i].id == id
                        && (forall j :: 0 <= j < i ==> store[j].id != id)
                        && r.value.1 == Merge(store[i], u, now)
                        && r.value.0[i] == r.value.1
                        && (forall j :: 0 <= j < |store| && j != i ==> r.value.0[j] == store[j])
  {
    var i := FindIndex(store, (t: Ticket) => t.id == id);
    if i == -1 then Err(NotFound)
    else
      var m := Merge(store[i], u, now);
      Ok((ReplaceAt(store, i, m), m))
  }

  /** A status-only update changes the status and the timestamp of that
      ticket and nothing else anywhere in the store. */
  lemma StatusUpdateFrame(store: seq<Ticket>, id: string, s: Status, now: string)
    requires exists i :: 0 <= i < |store| && store[i].id == id
    ensures var r := UpdateTicket(store, id, EmptyPatch.(status := Some(s)), now);
      r.Ok? && r.value.1.status == s && r.value.1.updatedAt == now
      && r.value.1 == store[FindIndex(store, (t: Ticket) => t.id == id)].(status := s, updatedAt := now)
  {
  }

  // ------------------------------------------------------------ deletion

  /** `deleteTicket`: remove the first ticket with the id; no-op otherwise. */
  function DeleteTicket(store: seq<Ticket>, id: string): (r: seq<Ticket>)
    ensures (forall i :: 0 <= i < |store| ==> store[i].id != id) ==> r == store
    ensures (exists i :: 0 <= i < |store| && store[i].id == id) ==>
      exists i :: 0 <= i < |store| && store[i].id == id
        && (forall j :: 0 <= j < i ==> store[j].id != id)
        && r == store[..i] + store[i + 1..]
  {
    var i := FindIndex(store, (t: Ticket) => t.id == id);
    if i == -1 then store else RemoveAt(store, i)
  }

  /** Deleting one id leaves the lookup of every other id unchanged. */
  lemma DeleteKeepsOtherLookups(store: seq<Ticket>, id: string, other: string)
    requires other != id
    ensures GetTicketById(DeleteTicket(store, id), other) == GetTicketById(store, other)
  {
    var i := FindIndex(store, (t: Ticket) => t.id == id);
    if i != -1 {
      FindAfterRemove(store, i, (t: Ticket) => t.id == other);
    }
  }

  // ------------------------------------------------------------ comments

  /** `getTicketComments`: the comments of one ticket, in order. */
  function GetTicketComments(comments: seq<Comment>, ticketId: string): (r: seq<Comment>)
    ensures IsSubsequence(r, comments)
    ensures forall i :: 0 <= i < |r| ==> r[i].ticketId == ticketId
    ensures forall i :: 0 <= i < |comments| && comments[i].ticketId == ticketId ==> comments[i] in r
  {
    Filter(comments, (c: Comment) => c.ticketId == ticketId)
  }

  /** `CMT-` and the number zero-padded to three digits. The id names the
      number it was made from. */
  function CommentId(n: nat): (id: string)
    ensures StartsWith(id, "CMT-") && |id| >= 7
    ensures AllDigits(id[4..]) && DigitsValue(id[4..]) == n
  {
    PrefixedNumber("CMT-", n);
    "CMT-" + PadStart(NatToString(n), 3, '0')
  }

  /** `addTicketComment`: append a comment whose author is the user the
      author id finds (undefined when there is none). */
  function AddTicketComment(comments: seq<Comment>, users: seq<User>, ticketId: string,
                            message: string, authorId: string, now: string): (r: (seq<Comment>, Comment))
    ensures r.0 == comments + [r.1]
    ensures r.1.id == CommentId(|comments| + 1)
    ensures r.1.ticketId == ticketId && r.1.message == message && r.1.createdAt == now
    ensures r.1.author.Some? <==> exists i :: 0 <= i < |users| && users[i].id == authorId
    ensures r.1.author.Some? ==> r.1.author.value.id == authorId && r.1.author.value in users
  {
    var author := Find(users, (u: User) => u.id == authorId);
    var c := Comment(CommentId(|comments| + 1), ticketId, author, message, now);
    (comments + [c], c)
  }

  /** A new comment shows up at the end of its own ticket's thread and in no
      other thread. */
  lemma AddedCommentJoinsThread(comments: seq<Comment>, users: seq<User>, ticketId: string,
                                message: string, authorId: string, now: string, other: string)
    ensures var (s, c) := AddTicketComment(comments, users, ticketId, message, authorId, now);
      GetTicketComments(s, ticketId) == GetTicketComments(comments, ticketId) + [c]
      && (other != ticketId ==> GetTicketComments(s, other) == GetTicketComments(comments, other))
  {
    var (s, c) := AddTicketComment(comments, users, ticketId, message, authorId, now);
    assert s == comments + [c];
    ThreadAfterAppend(comments, c, ticketId);
    ThreadAfterAppend(comments, c, other);
  }

  /** Appending a comment extends its own thread by that comment and leaves
      every other thread as it was. */
  lemma ThreadAfterAppend(comments: seq<Comment>, c: Comment, t: string)
    ensures GetTicketComments(comments + [c], t)
         == GetTicketComments(comments, t) + (if c.ticketId == t then [c] else [])
  {
    FilterAppend(comments, [c], (x: Comment) => x.ticketId == t);
    assert [c][1..] == [];
  }
}
