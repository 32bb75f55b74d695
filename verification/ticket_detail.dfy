/** The page of one ticket: which of its four states it renders, what it
    offers each role, the comment form's validation, and the updates its
    editors send. */
module TicketDetail {
  import opened Types
  import opened Seqs
  import opened Text
  import opened Rbac
  import TicketsService

  // ---------------------------------------------------------- render state

  /** What the controls of the detail view offer. */
  datatype Offers = Offers(deleteButton: bool, commentForm: bool, statusEditor: bool, priorityEditor: bool)

  datatype View = Loading | Failed | Missing | Detail(ticket: Ticket, offers: Offers)

  function OffersFor(role: Option<Role>): (o: Offers)
    ensures o.deleteButton <==> CanAccess(role, Tickets, Delete)
    ensures o.commentForm <==> CanAccess(role, Tickets, Update)
    ensures o.statusEditor <==> CanAccess(role, Tickets, Update)
    ensures o.priorityEditor <==> CanAccess(role, Tickets, Update)
  {
    var canUpdate := CanAccess(role, Tickets, Update);
    Offers(CanAccess(role, Tickets, Delete), canUpdate, canUpdate, canUpdate)
  }

  /** The early returns, in order: loading, then the error, then a missing
      ticket, and only then the detail view. */
  function Render(isLoading: bool, failed: bool, ticket: Option<Ticket>, role: Option<Role>): (v: View)
    ensures isLoading ==> v == Loading
    ensures !isLoading && failed ==> v == Failed
    ensures !isLoading && !failed && ticket.None? ==> v == Missing
    ensures v.Detail? <==> !isLoading && !failed && ticket.Some?
    ensures v.Detail? ==> v.ticket == ticket.value && v.offers == OffersFor(role)
  {
    if isLoading then Loading
    else if failed then Failed
    else if ticket.None? then Missing
    else Detail(ticket.value, OffersFor(role))
  }

  /** Only administrators may delete; administrators and staff may comment
      and edit; viewers see read-only badges. */
  lemma OffersByRole()
    ensures OffersFor(Some(Admin)) == Offers(true, true, true, true)
    ensures OffersFor(Some(Staff)) == Offers(false, true, true, true)
    ensures OffersFor(Some(Viewer)) == Offers(false, false, false, false)
    ensures OffersFor(None) == Offers(false, false, false, false)
  {
    CanAccessMatchesReference(Admin, Tickets, Update);
    CanAccessMatchesReference(Admin, Tickets, Delete);
    CanAccessMatchesReference(Staff, Tickets, Update);
    CanAccessMatchesReference(Staff, Tickets, Delete);
    CanAccessMatchesReference(Viewer, Tickets, Update);
    CanAccessMatchesReference(Viewer, Tickets, Delete);
  }

  /** The delete button is offered to exactly the roles that may delete. */
  lemma DeleteOnlyForAdmin(role: Role)
    ensures OffersFor(Some(role)).deleteButton <==> role == Admin
  {
    CanAccessMatchesReference(role, Tickets, Delete);
  }

  // -------------------------------------------------------------- comments

  const MaxCommentLength: nat := 1000

  datatype CommentIssue = CommentRequired | CommentTooLong

  /** `z.string().min(1, 'errors.required').max(1000)`: lengths count UTF-16
      code units and the message is not trimmed. */
  function ValidateComment(message: string): (r: Option<CommentIssue>)
    ensures r.None? <==> 1 <= Utf16Length(message) <= MaxCommentLength
    ensures r == Some(CommentRequired) <==> message == ""
    ensures r == Some(CommentTooLong) <==> Utf16Length(message) > MaxCommentLength
  {
    var n := Utf16Length(message);
    if n < 1 then Some(CommentRequired)
    else if n > MaxCommentLength then Some(CommentTooLong)
    else None
  }

  /** Since nothing is trimmed, a comment of blanks is accepted. */
  lemma BlankCommentAccepted(k: nat)
    requires 1 <= k <= MaxCommentLength
    ensures ValidateComment(seq(k, i => ' ')).None?
  {
    Utf16LengthBmp(seq(k, i => ' '));
  }

  /** Submitting the form: a valid message is stored as a comment of the
      signed-in user on this ticket; an invalid one changes nothing. */
  function SubmitComment(comments: seq<Comment>, users: seq<User>, ticketId: string,
                         message: string, author: User, now: string): (r: seq<Comment>)
    ensures ValidateComment(message).Some? ==> r == comments
    ensures ValidateComment(message).None? ==>
      r == TicketsService.AddTicketComment(comments, users, ticketId, message, author.id, now).0
  {
    if ValidateComment(message).Some? then comments
    else TicketsService.AddTicketComment(comments, users, ticketId, message, author.id, now).0
  }

  /** An accepted comment appears at the end of this ticket's thread,
      carrying the message as typed. */
  lemma AcceptedCommentShows(comments: seq<Comment>, users: seq<User>, ticketId: string,
                             message: string, author: User, now: string)
    requires ValidateComment(message).None?
    ensures var thread := TicketsService.GetTicketComments(
              SubmitComment(comments, users, ticketId, message, author, now), ticketId);
      && |thread| == |TicketsService.GetTicketComments(comments, ticketId)| + 1
      && thread[|thread| - 1].message == message
      && thread[|thread| - 1].ticketId == ticketId
  {
    TicketsService.AddedCommentJoinsThread(comments, users, ticketId, message, author.id, now, ticketId);
  }

  // --------------------------------------------------------------- editors

  /** The status editor sends `{ status }` and nothing else. */
  function StatusChange(s: Status): (p: TicketsService.TicketPatch)
    ensures p.status == Some(s)
    ensures p.id.None? && p.title.None? && p.description.None? && p.priority.None?
    ensures p.assignee.None? && p.createdAt.None? && p.updatedAt.None?
  {
    TicketsService.EmptyPatch.(status := Some(s))
  }

  /** The priority editor sends `{ priority }` and nothing else. */
  function PriorityChange(p: Priority): (r: TicketsService.TicketPatch)
    ensures r.priority == Some(p)
    ensures r.id.None? && r.title.None? && r.description.None? && r.status.None?
    ensures r.assignee.None? && r.createdAt.None? && r.updatedAt.None?
  {
    TicketsService.EmptyPatch.(priority := Some(p))
  }

  /** Sent to the service, an editor change rewrites that one field of the
      ticket (and its update time) and nothing else. */
  lemma EditorChangesOneField(store: seq<Ticket>, id: string, s: Status, p: Priority, now: string)
    requires exists i :: 0 <= i < |store| && store[i].id == id
    ensures var t := TicketsService.GetTicketById(store, id).value;
      && TicketsService.UpdateTicket(store, id, StatusChange(s), now).value.1
           == t.(status := s, updatedAt := now)
      && TicketsService.UpdateTicket(store, id, PriorityChange(p), now).value.1
           == t.(priority := p, updatedAt := now)
  {
  }

  // ---------------------------------------------------------------- delete

  /** Where a confirmed delete leads: back to the list on success, nowhere
      (an error toast) on failure. */
  function AfterDelete(succeeded: bool): (to: Option<string>)
    ensures succeeded <==> to == Some("/tickets")
    ensures !succeeded ==> to.None?
  {
    if succeeded then Some("/tickets") else None
  }
}
