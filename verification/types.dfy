/** The domain records of the dashboard: users, tickets, comments, the
    paginated response wrapper and the ticket list filters. */
module Types {

  datatype Option<+T> = None | Some(value: T)

  /** A field of an object spread over another: the update's value when it
      is present, the current one otherwise. */
  function Override<T>(current: T, update: Option<T>): (r: T)
    ensures update.Some? ==> r == update.value
    ensures update.None? ==> r == current
  {
    if update.Some? then update.value else current
  }

  /** A value or the message of the error the operation throws. */
  datatype Result<+T> = Ok(value: T) | Err(message: string)

  /** Roles, from most to least privileged. */
  datatype Role = Admin | Staff | Viewer

  datatype Status = Open | InProgress | Closed

  datatype Priority = Low | Medium | High

  datatype User = User(
    id: string,
    name: string,
    email: string,
    role: Role,
    avatar: Option<string>,
    createdAt: string)

  datatype Ticket = Ticket(
    id: string,
    title: string,
    description: string,
    status: Status,
    priority: Priority,
    assignee: Option<User>,
    createdAt: string,
    updatedAt: string)

  /** A comment on a ticket. The author is optional because the mock service
      stores whatever its user lookup returns, which is undefined for an
      unknown author id. */
  datatype Comment = Comment(
    id: string,
    ticketId: string,
    author: Option<User>,
    message: string,
    createdAt: string)

  datatype PaginatedResponse<T> = PaginatedResponse(
    data: seq<T>,
    total: nat,
    page: nat,
    pageSize: nat,
    totalPages: nat)

  /** A status filter value: `'all'` or one status. */
  datatype StatusChoice = AllStatuses | StatusIs(status: Status)

  /** A priority filter value: `'all'` or one priority. */
  datatype PriorityChoice = AllPriorities | PriorityIs(priority: Priority)

  /** The query of the ticket list; every field may be absent. */
  datatype TicketFilters = TicketFilters(
    search: Option<string>,
    status: Option<StatusChoice>,
    priority: Option<PriorityChoice>,
    page: Option<nat>,
    pageSize: Option<nat>)

  /** The wire names of the enumerations. */
  function StatusName(s: Status): string {
    match s
    case Open => "open"
    case InProgress => "in_progress"
    case Closed => "closed"
  }

  function PriorityName(p: Priority): string {
    match p
    case Low => "low"
    case Medium => "medium"
    case High => "high"
  }

  function ParseStatus(name: string): (r: Option<Status>)
    ensures r.Some? ==> StatusName(r.value) == name
  {
    if name == "open" then Some(Open)
    else if name == "in_progress" then Some(InProgress)
    else if name == "closed" then Some(Closed)
    else None
  }

  function ParsePriority(name: string): (r: Option<Priority>)
    ensures r.Some? ==> PriorityName(r.value) == name
  {
    if name == "low" then Some(Low)
    else if name == "medium" then Some(Medium)
    else if name == "high" then Some(High)
    else None
  }

  /** Parsing accepts exactly the names of the statuses. */
  lemma StatusNameRoundTrip(name: string)
    ensures ParseStatus(name).Some? <==> exists s :: StatusName(s) == name
    ensures forall s :: ParseStatus(StatusName(s)) == Some(s)
  {
    if exists s :: StatusName(s) == name {
      var s :| StatusName(s) == name;
      assert ParseStatus(StatusName(s)) == Some(s) by { match s { case Open => case InProgress => case Closed => } }
    }
  }

  /** Parsing accepts exactly the names of the priorities. */
  lemma PriorityNameRoundTrip(name: string)
    ensures ParsePriority(name).Some? <==> exists p :: PriorityName(p) == name
    ensures forall p :: ParsePriority(PriorityName(p)) == Some(p)
  {
    if exists p :: PriorityName(p) == name {
      var p :| PriorityName(p) == name;
      assert ParsePriority(PriorityName(p)) == Some(p) by { match p { case Low => case Medium => case High => } }
    }
  }
}
