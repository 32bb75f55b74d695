/** The ticket creation form: its schema (trimmed length bounds on title and
    description, enumerations for status and priority), its default values,
    the payload it submits, the permission guard around it, and where it
    leads after a successful creation. */
module NewTicket {
  import opened Types
  import opened Text
  import opened Rbac
  import RoleGuard
  import TicketsService
  import Breadcrumbs

  /** The raw form fields, as strings. */
  datatype FormValues = FormValues(title: string, description: string, status: string, priority: string)

  const Defaults := FormValues("", "", "open", "medium")

  const TitleMin: nat := 3
  const TitleMax: nat := 100
  const DescriptionMin: nat := 10
  const DescriptionMax: nat := 1000

  datatype Issue =
    | TitleTooShort
    | TitleTooLong
    | DescriptionTooShort
    | DescriptionTooLong
    | InvalidStatus
    | InvalidPriority

  /** The messages the schema attaches; the enumeration issues carry the
      validation library's own text, which is not modelled. */
  function IssueMessage(issue: Issue): Option<string> {
    match issue
    case TitleTooShort => Some("Title must be at least 3 characters")
    case TitleTooLong => Some("Title must be at most 100 characters")
    case DescriptionTooShort => Some("Description must be at least 10 characters")
    case DescriptionTooLong => Some("Description must be at most 1000 characters")
    case InvalidStatus => None
    case InvalidPriority => None
  }

  /** `.min(lo).max(hi)` on a field whose trimmed length is `n`: at most one
      of the two bounds can fail. */
  function LengthIssues(n: nat, lo: nat, hi: nat, tooShort: Issue, tooLong: Issue): (r: seq<Issue>)
    requires lo <= hi && tooShort != tooLong
    ensures r == [] <==> lo <= n <= hi
    ensures r == [tooShort] <==> n < lo
    ensures r != [tooShort] ==> (r == [tooLong] <==> n > hi)
  {
    if n < lo then [tooShort] else if n > hi then [tooLong] else []
  }

  /** The issues of a form with the given trimmed lengths and enumeration
      verdicts, field by field in schema order. */
  function IssuesFrom(titleLength: nat, descriptionLength: nat, statusOk: bool, priorityOk: bool): seq<Issue> {
    LengthIssues(titleLength, TitleMin, TitleMax, TitleTooShort, TitleTooLong)
    + LengthIssues(descriptionLength, DescriptionMin, DescriptionMax, DescriptionTooShort, DescriptionTooLong)
    + (if statusOk then [] else [InvalidStatus])
    + (if priorityOk then [] else [InvalidPriority])
  }

  /** Every issue of the form: `.trim()` comes before the bounds. */
  function Issues(f: FormValues): seq<Issue> {
    IssuesFrom(Utf16Length(Trim(f.title)), Utf16Length(Trim(f.description)),
      ParseStatus(f.status).Some?, ParsePriority(f.priority).Some?)
  }

  datatype Outcome = Valid(draft: TicketsService.TicketDraft) | Invalid(issues: seq<Issue>)

  /** The form passes every check of the schema. */
  predicate Acceptable(f: FormValues) {
    && TitleMin <= Utf16Length(Trim(f.title)) <= TitleMax
    && DescriptionMin <= Utf16Length(Trim(f.description)) <= DescriptionMax
    && ParseStatus(f.status).Some?
    && ParsePriority(f.priority).Some?
  }

  /** Each issue is reported exactly when its check fails. */
  lemma IssuesFromExact(tl: nat, dl: nat, so: bool, po: bool)
    ensures IssuesFrom(tl, dl, so, po) == [] <==>
      TitleMin <= tl <= TitleMax && DescriptionMin <= dl <= DescriptionMax && so && po
    ensures TitleTooShort in IssuesFrom(tl, dl, so, po) <==> tl < TitleMin
    ensures TitleTooLong in IssuesFrom(tl, dl, so, po) <==> tl > TitleMax
    ensures DescriptionTooShort in IssuesFrom(tl, dl, so, po) <==> dl < DescriptionMin
    ensures DescriptionTooLong in IssuesFrom(tl, dl, so, po) <==> dl > DescriptionMax
    ensures InvalidStatus in IssuesFrom(tl, dl, so, po) <==> !so
    ensures InvalidPriority in IssuesFrom(tl, dl, so, po) <==> !po
  {
  }

  /** The same, stated on the form's fields. */
  lemma IssuesExact(f: FormValues)
    ensures Issues(f) == [] <==> Acceptable(f)
    ensures TitleTooShort in Issues(f) <==> Utf16Length(Trim(f.title)) < TitleMin
    ensures TitleTooLong in Issues(f) <==> Utf16Length(Trim(f.title)) > TitleMax
    ensures DescriptionTooShort in Issues(f) <==> Utf16Length(Trim(f.description)) < DescriptionMin
    ensures DescriptionTooLong in Issues(f) <==> Utf16Length(Trim(f.description)) > DescriptionMax
    ensures InvalidStatus in Issues(f) <==> ParseStatus(f.status).None?
    ensures InvalidPriority in Issues(f) <==> ParsePriority(f.priority).None?
  {
    IssuesFromExact(Utf16Length(Trim(f.title)), Utf16Length(Trim(f.description)),
      ParseStatus(f.status).Some?, ParsePriority(f.priority).Some?);
  }

  /** The schema's verdict: the trimmed payload, or the issues found. */
  function Validate(f: FormValues): (r: Outcome)
    ensures r.Valid? <==> Acceptable(f)
    ensures r.Valid? ==> r.draft.title == Trim(f.title) && r.draft.description == Trim(f.description)
    ensures r.Valid? ==> StatusName(r.draft.status) == f.status && PriorityName(r.draft.priority) == f.priority
    ensures r.Valid? ==> r.draft.assignee.None?
    ensures r.Invalid? ==> r.issues == Issues(f) && |r.issues| >= 1
  {
    IssuesExact(f);
    var issues := Issues(f);
    if issues == [] then
      Valid(TicketsService.TicketDraft(Trim(f.title), Trim(f.description),
        ParseStatus(f.status).value, ParsePriority(f.priority).value, None))
    else Invalid(issues)
  }

  /** The untouched form fails on its two empty text fields only; its
      status and priority are already valid. */
  lemma DefaultsNeedText()
    ensures Validate(Defaults) == Invalid([TitleTooShort, DescriptionTooShort])
    ensures ParseStatus(Defaults.status) == Some(Open)
    ensures ParsePriority(Defaults.priority) == Some(Medium)
  {
    EmptyFieldsOnly(Defaults);
  }

  /** A form with both text fields empty and valid choices reports the two
      short fields. */
  lemma EmptyFieldsOnly(f: FormValues)
    requires f.title == "" && f.description == ""
    requires ParseStatus(f.status).Some? && ParsePriority(f.priority).Some?
    ensures Issues(f) == [TitleTooShort, DescriptionTooShort]
  {
    EmptyTrimmedLength(f.title);
    EmptyTrimmedLength(f.description);
    assert IssuesFrom(0, 0, true, true) == [TitleTooShort, DescriptionTooShort];
  }

  lemma EmptyTrimmedLength(s: string)
    requires s == ""
    ensures Utf16Length(Trim(s)) == 0
  {
  }

  /** Surrounding blanks neither count toward the bounds nor reach the
      payload. */
  lemma TrimmedBeforeChecking(core: string, pad: nat)
    requires |core| > 0 && !IsJsWhitespace(core[0]) && !IsJsWhitespace(core[|core| - 1])
    ensures Trim(Repeat(' ', pad) + core + Repeat(' ', pad)) == core
  {
    PaddedInfix(core, pad);
    TrimFinds(Repeat(' ', pad) + core + Repeat(' ', pad), core, pad);
  }

  /** The value sits between two runs of blanks. */
  lemma PaddedInfix(core: string, pad: nat)
    ensures InfixAmidWhitespace(Repeat(' ', pad) + core + Repeat(' ', pad), core, pad)
  {
    var a := Repeat(' ', pad);
    var s := a + core + a;
    assert s[pad..pad + |core|] == core;
    forall k | 0 <= k < pad ensures IsJsWhitespace(s[k]) {
      assert s[k] == a[k];
    }
    forall k | pad + |core| <= k < |s| ensures IsJsWhitespace(s[k]) {
      assert s[k] == a[k - pad - |core|];
    }
  }

  // ----------------------------------------------------------------- guard

  /** The form is shown only to roles that may create tickets. */
  lemma FormNeedsCreateGrant(u: User)
    ensures RoleGuard.Decide(Some(u), Tickets, Some(Create), None) == RoleGuard.RenderChildren
      <==> u.role == Admin || u.role == Staff
  {
    CanAccessMatchesReference(u.role, Tickets, Create);
  }

  // ---------------------------------------------------------------- submit

  /** A valid form creates the ticket and opens its page; an invalid one
      only shows its issues. */
  function Submit(store: seq<Ticket>, f: FormValues, now: string): (r: Option<(seq<Ticket>, string)>)
    ensures r.None? <==> Validate(f).Invalid?
    ensures r.Some? ==> var (s, t) := TicketsService.CreateTicket(store, Validate(f).draft, now);
      r.value == (s, "/tickets/" + t.id)
  {
    match Validate(f)
    case Invalid(_) => None
    case Valid(draft) =>
      var (s, t) := TicketsService.CreateTicket(store, draft, now);
      Some((s, "/tickets/" + t.id))
  }

  /** After a successful submission the page that opens shows the new
      ticket, with the trimmed title, under a "Tickets › Ticket details"
      trail. */
  lemma SubmitOpensNewTicket(store: seq<Ticket>, f: FormValues, now: string)
    ensures Validate(f).Valid? ==>
      var (s, path) := Submit(store, f, now).value;
      var id := TicketsService.TicketId(|store| + 1);
      && path == "/tickets/" + id
      && TicketsService.GetTicketById(s, id).Some?
      && TicketsService.GetTicketById(s, id).value.title == Trim(f.title)
      && Breadcrumbs.IsId(id)
  {
    if Validate(f).Valid? {
      TicketsService.CreatedTicketIsFound(store, Validate(f).draft, now);
      TicketIdIsId(|store| + 1);
    }
  }

  /** Generated ticket ids look like identifiers to the breadcrumbs. */
  lemma TicketIdIsId(n: nat)
    ensures Breadcrumbs.IsId(TicketsService.TicketId(n))
  {
    PrefixedDigitsIsId(TicketsService.TicketId(n));
  }

  /** `TKT-` followed by digits matches the identifier pattern. */
  lemma PrefixedDigitsIsId(id: string)
    requires StartsWith(id, "TKT-") && AllDigits(id[4..])
    ensures Breadcrumbs.IsId(id)
  {
    var digits := id[4..];
    assert id[0] == "TKT-"[0];
    assert Breadcrumbs.PathLabel(id).None? by {
      assert "tickets"[0] == 't' && "users"[0] == 'u' && "settings"[0] == 's';
      assert id !in Breadcrumbs.InheritedKeys;
    }
    forall i | 0 <= i < |id| ensures Breadcrumbs.IsIdChar(id[i]) {
      if i < 4 {
        assert id[i] == "TKT-"[i];
      } else {
        assert id[i] == digits[i - 4];
      }
    }
  }
}
