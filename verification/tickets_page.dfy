/** The ticket list page: the filter and pagination state the page keeps,
    the range label under the table, and what the page offers each role. */
module TicketsPage {
  import opened Types
  import opened Paging
  import opened Rbac
  import TicketsService

  /** The page's filter state. The page always sets every field, so none is
      optional here. */
  datatype ListFilters = ListFilters(
    search: string,
    status: StatusChoice,
    priority: PriorityChoice,
    page: int,
    pageSize: nat)

  const Initial := ListFilters("", AllStatuses, AllPriorities, 1, 10)

  /** A user interaction with the filters or the pagination buttons. */
  datatype Event =
    | SearchChanged(value: string)
    | StatusChanged(status: StatusChoice)
    | PriorityChanged(priority: PriorityChoice)
    | PreviousClicked
    | NextClicked

  /** The pagination bar is shown only with more than one page;
      `totalPages` is 0 while no response is loaded. */
  function ControlsShown(totalPages: nat): (b: bool)
    ensures b <==> totalPages >= 2
  {
    totalPages > 1
  }

  /** "Previous" is disabled on page 1 only; from a valid page it always
      leads to an existing page. */
  function PreviousEnabled(f: ListFilters, totalPages: nat): (b: bool)
    ensures b ==> ControlsShown(totalPages)
    ensures b && 1 <= f.page ==> 2 <= f.page
    ensures ControlsShown(totalPages) && 2 <= f.page ==> b
  {
    ControlsShown(totalPages) && f.page != 1
  }

  /** "Next" is disabled on the last page only; from a valid page it always
      leads to an existing page. */
  function NextEnabled(f: ListFilters, totalPages: nat): (b: bool)
    ensures b ==> ControlsShown(totalPages)
    ensures b && f.page <= totalPages ==> f.page + 1 <= totalPages
    ensures ControlsShown(totalPages) && f.page < totalPages ==> b
  {
    ControlsShown(totalPages) && f.page != totalPages
  }

  /** The state after one event; a click on a hidden or disabled button
      changes nothing. */
  function Step(f: ListFilters, e: Event, totalPages: nat): (g: ListFilters)
    ensures e.SearchChanged? ==> g == f.(search := e.value, page := 1)
    ensures e.StatusChanged? ==> g == f.(status := e.status, page := 1)
    ensures e.PriorityChanged? ==> g == f.(priority := e.priority, page := 1)
    ensures e.PreviousClicked? ==>
      g == (if PreviousEnabled(f, totalPages) then f.(page := f.page - 1) else f)
    ensures e.NextClicked? ==>
      g == (if NextEnabled(f, totalPages) then f.(page := f.page + 1) else f)
    ensures g.pageSize == f.pageSize
    ensures f.page >= 1 ==> g.page >= 1
    ensures e.PreviousClicked? || e.NextClicked? ==>
      g.search == f.search && g.status == f.status && g.priority == f.priority
    ensures g.page == 1 || g.page == f.page - 1 || g.page == f.page || g.page == f.page + 1
  {
    match e
    case SearchChanged(v) => f.(search := v, page := 1)
    case StatusChanged(s) => f.(status := s, page := 1)
    case PriorityChanged(p) => f.(priority := p, page := 1)
    case PreviousClicked => if PreviousEnabled(f, totalPages) then f.(page := f.page - 1) else f
    case NextClicked => if NextEnabled(f, totalPages) then f.(page := f.page + 1) else f
  }

  /** The state after a sequence of events, each seen with the page count
      of the response shown at that moment. */
  function Run(f: ListFilters, events: seq<(Event, nat)>): (g: ListFilters)
    ensures g.pageSize == f.pageSize
    ensures f.page >= 1 ==> g.page >= 1
    ensures (forall i :: 0 <= i < |events| ==> events[i].0.PreviousClicked? || events[i].0.NextClicked?) ==>
      g.search == f.search && g.status == f.status && g.priority == f.priority
    decreases |events|
  {
    if |events| == 0 then f else Run(Step(f, events[0].0, events[0].1), events[1..])
  }

  /** The states the page can reach: the page number never drops below 1
      and the page size never changes. */
  predicate WellFormed(f: ListFilters) {
    f.page >= 1 && f.pageSize == 10
  }

  lemma StepKeepsWellFormed(f: ListFilters, e: Event, totalPages: nat)
    requires WellFormed(f)
    ensures WellFormed(Step(f, e, totalPages))
  {
  }

  lemma {:induction false} RunKeepsWellFormed(f: ListFilters, events: seq<(Event, nat)>)
    requires WellFormed(f)
    ensures WellFormed(Run(f, events))
    decreases |events|
  {
    if |events| > 0 {
      StepKeepsWellFormed(f, events[0].0, events[0].1);
      RunKeepsWellFormed(Step(f, events[0].0, events[0].1), events[1..]);
    }
  }

  /** Every reachable state is well formed. */
  lemma ReachableWellFormed(events: seq<(Event, nat)>)
    ensures WellFormed(Run(Initial, events))
  {
    RunKeepsWellFormed(Initial, events);
  }

  /** While the page count stays the same, the buttons keep the page within
      the existing pages. */
  lemma {:induction false} PageStaysInRange(f: ListFilters, events: seq<(Event, nat)>, totalPages: nat)
    requires 1 <= f.page <= Max1(totalPages)
    requires forall i :: 0 <= i < |events| ==> events[i].1 == totalPages
    ensures 1 <= Run(f, events).page <= Max1(totalPages)
    decreases |events|
  {
    if |events| > 0 {
      var g := Step(f, events[0].0, totalPages);
      assert forall i :: 0 <= i < |events[1..]| ==> events[1..][i].1 == events[i + 1].1;
      PageStaysInRange(g, events[1..], totalPages);
    }
  }

  /** Past the last page "next" stays enabled, since it is disabled only on
      the last page itself. The page gets there when a deletion shrinks the
      list while the page number stays; another click moves further away,
      and the label's first row then lies beyond its last. */
  lemma NextPastLastPage(f: ListFilters, totalPages: nat, total: nat)
    requires WellFormed(f)
    requires ControlsShown(totalPages) && totalPages < f.page
    requires total <= totalPages * f.pageSize
    ensures NextEnabled(f, totalPages)
    ensures Step(f, NextClicked, totalPages).page == f.page + 1
    ensures RangeEnd(f, total) < RangeStart(f)
  {
  }

  /** A concrete instance: two clicks reach page 3 of 21 pages; after the
      only ticket of page 3 is deleted there are 20 tickets on 2 pages, "next"
      leads to page 4 and the label reads "21-20 of 20". */
  lemma DeleteLeavesPastLastPage()
    ensures var f := Run(Initial, [(NextClicked, 21), (NextClicked, 21)]);
      && f.page == 3
      && NextEnabled(f, 2)
      && Step(f, NextClicked, 2).page == 4
      && RangeStart(f) == 21 && RangeEnd(f, 20) == 20
  {
    var f1 := Step(Initial, NextClicked, 21);
    assert f1.page == 2;
    var evs := [(NextClicked, 21), (NextClicked, 21)];
    assert evs[1..] == [(NextClicked, 21)];
    assert Run(Initial, evs) == Run(f1, [(NextClicked, 21)]);
  }

  function Max1(n: nat): nat {
    if n >= 1 then n else 1
  }

  // --------------------------------------------------------- the request

  /** The query the page sends for its state. */
  function Query(f: ListFilters): (q: TicketFilters)
    requires WellFormed(f)
    ensures TicketsService.ResolvedPage(q) == f.page
    ensures TicketsService.ResolvedPageSize(q) == f.pageSize
  {
    TicketFilters(Some(f.search), Some(f.status), Some(f.priority), Some(f.page), Some(f.pageSize))
  }

  // ----------------------------------------------------------- the label

  /** "Showing start-end of total": the first row of the window the
      service cuts, counted from 1. */
  function RangeStart(f: ListFilters): (r: int)
    ensures f.page >= 1 ==> r == PageStart(f.page, f.pageSize) + 1
  {
    (f.page - 1) * f.pageSize + 1
  }

  /** The last row of the window, cut off at the total. */
  function RangeEnd(f: ListFilters, total: nat): (r: int)
    ensures r <= total
    ensures f.page >= 1 ==> r == Min(PageStart(f.page, f.pageSize) + f.pageSize, total)
  {
    Min(f.page * f.pageSize, total)
  }

  /** On an existing page the label counts exactly the rows shown and never
      runs past the total. */
  lemma RangeLabelCountsRows(store: seq<Ticket>, f: ListFilters)
    requires WellFormed(f)
    requires f.page <= TicketsService.GetTickets(store, Query(f)).totalPages
    ensures var r := TicketsService.GetTickets(store, Query(f));
      && 1 <= RangeStart(f) <= RangeEnd(f, r.total) <= r.total
      && RangeEnd(f, r.total) - RangeStart(f) + 1 == |r.data|
  {
    var r := TicketsService.GetTickets(store, Query(f));
    var filtered := TicketsService.FilterTickets(store, Query(f));
    var start := PageStart(f.page, f.pageSize);
    assert r == Paginate(filtered, f.page, f.pageSize);
    MulMonotone(f.page - 1, r.totalPages - 1, f.pageSize);
    assert start < r.total;
  }

  // -------------------------------------------------------------- gating

  /** What the page offers a role. */
  datatype Offers = Offers(createButton: bool, emptyStateAction: bool, deleteColumn: bool)

  function OffersFor(role: Option<Role>): (o: Offers)
    ensures o.createButton <==> CanAccess(role, Tickets, Create)
    ensures o.emptyStateAction <==> CanAccess(role, Tickets, Create)
    ensures o.deleteColumn <==> CanAccess(role, Tickets, Delete)
  {
    var canCreate := CanAccess(role, Tickets, Create);
    Offers(canCreate, canCreate, CanAccess(role, Tickets, Delete))
  }

  /** Administrators get everything, staff may create but not delete,
      viewers and visitors get neither. */
  lemma OffersByRole()
    ensures OffersFor(Some(Admin)) == Offers(true, true, true)
    ensures OffersFor(Some(Staff)) == Offers(true, true, false)
    ensures OffersFor(Some(Viewer)) == Offers(false, false, false)
    ensures OffersFor(None) == Offers(false, false, false)
  {
    CanAccessMatchesReference(Admin, Tickets, Create);
    CanAccessMatchesReference(Admin, Tickets, Delete);
    CanAccessMatchesReference(Staff, Tickets, Create);
    CanAccessMatchesReference(Staff, Tickets, Delete);
    CanAccessMatchesReference(Viewer, Tickets, Create);
    CanAccessMatchesReference(Viewer, Tickets, Delete);
  }

  /** Where in a row the user clicked. */
  datatype Target = RowBody | DeleteButton

  datatype Effect = NavigateTo(path: string) | AskToDelete(id: string)

  /** A row click opens the ticket; the delete button stops the click from
      reaching the row and only asks for confirmation. */
  function Click(target: Target, id: string): (e: Effect)
    ensures target.RowBody? ==> e == NavigateTo("/tickets/" + id)
    ensures target.DeleteButton? ==> e == AskToDelete(id)
    ensures e.NavigateTo? <==> target.RowBody?
  {
    match target
    case RowBody => NavigateTo("/tickets/" + id)
    case DeleteButton => AskToDelete(id)
  }
}
