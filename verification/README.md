# Admin dashboard access control and mock services, in Dafny

This project models the decision logic of a React admin dashboard for
support tickets. The model covers:

- the role-based access policy: a fixed table of (role, resource, action)
  grants, `canAccess`, `getAllowedActions` and `hasRoleLevel`;
- the places that enforce the policy:
  - `RoleGuard` and `ProtectedRoute`;
  - the sidebar's visible entries and active link;
  - what the ticket list, ticket detail, new-ticket and user pages offer
    each role;
- the in-memory ("mock") ticket and user services: filtering, pagination,
  lookup, creation, update, deletion and ticket comments;
- the new-ticket form schema and the comment schema;
- the breadcrumb trail built from the location;
- the demo-mode authentication session: login, logout, the start-up check
  and its two storage areas.

All of it is written as pure functions over immutable datatypes:

- A service mutation maps the old store (a `seq`) to the new store and the
  record it returns.
- A thrown error becomes `Err(message)` of a `Result`.
- A page control becomes a boolean in an "offers" record.
- A component's choice of what to render becomes a small datatype.

Timestamps (`new Date().toISOString()`) are a `now` parameter. The
browser's storage areas are maps from keys to stored values.

Modules follow the source files:

- `Types` holds the records of `src/types/index.ts`.
- `Rbac` models `src/lib/rbac.ts`.
- `RoleGuard` and `ProtectedRoute` model the two guards.
- `Sidebar` and `Breadcrumbs` model the layout components.
- `TicketsService` and `UsersService` model the services.
- `TicketsPage`, `TicketDetail`, `NewTicket` and `UsersPage` model the
  pages.
- `Auth` models `src/contexts/AuthContext.tsx`.
- `Seqs`, `Text` and `Paging` hold the JavaScript library behaviour the
  code relies on:
  - `filter`, `find`, `findIndex` and `splice`;
  - `split`, `join` and `trim`;
  - `toLowerCase`, `toUpperCase`, `startsWith` and `includes`;
  - UTF-16 `length`, `String(n)` and `padStart`;
  - `slice` and `Math.ceil`.

## Model

| member | source | states |
|---|---|---|
| Types.ParseStatus | src/types/index.ts:15 | a name parses only to the status it names |
| Types.ParsePriority | src/types/index.ts:18 | a name parses only to the priority it names |
| Types.StatusNameRoundTrip | src/types/index.ts:15 | parsing accepts exactly the three status names, and parsing a status's name gives that status back |
| Types.PriorityNameRoundTrip | src/types/index.ts:18 | parsing accepts exactly the three priority names, and parsing a priority's name gives that priority back |
| Rbac.CanAccess | src/lib/rbac.ts:66-76 | access is granted exactly when some row of the table matches role, resource and action, and never without a role |
| Rbac.GetAllowedActions | src/lib/rbac.ts:84-93 | an action is listed exactly when it is granted; the list is empty without a role |
| Rbac.HasRoleLevel | src/lib/rbac.ts:99-112 | the rank comparison admin 3, staff 2, viewer 1, false without a role |
| Rbac.PermissionsDistinct | src/lib/rbac.ts:29-57 | no triple appears twice in the table |
| Rbac.AllowedActionsDistinct | src/lib/rbac.ts:90-92 | the projection lists each action at most once |
| Rbac.TableSound | src/lib/rbac.ts:29-57 | every row of the table is in the per-role reference matrix |
| Rbac.TableComplete | src/lib/rbac.ts:29-57 | every entry of the reference matrix is a row of the table |
| Rbac.CanAccessMatchesReference | src/lib/rbac.ts:29-76 | `canAccess` holds exactly when the action is in the reference matrix for the role and resource |
| Rbac.AllowedActionsMatchReference | src/lib/rbac.ts:84-93 | the allowed actions are exactly the reference matrix entry |
| Rbac.DefaultDeny | src/lib/rbac.ts:71 | with no role every check fails and every projection is empty |
| Rbac.RoleLevelOrder | src/lib/rbac.ts:103-111 | the rank order is reflexive, transitive, total and antisymmetric; a missing role has no rank |
| Rbac.RoleLevelCases | src/lib/rbac.ts:105-111 | admin outranks staff, viewer does not, admin reaches every level and every role reaches viewer |
| Rbac.HierarchyIndependentOfGrants | src/lib/rbac.ts:35 | staff outranks viewer, yet only admin may delete tickets |
| Rbac.GrantsMonotone | src/lib/rbac.ts:31-56 | whatever a role may do, every role ranking at least as high may do too |
| Rbac.ConcreteScenarios | src/lib/rbac.ts:39-56 | admin deletes users, staff does not, viewer creates no tickets and has no user access, viewer may update settings and is allowed exactly [view, update] there |
| RoleGuard.Decide | src/components/auth/RoleGuard.tsx:19-49 | children render exactly when the role may act; otherwise a truthy fallback renders, else the access-denied card; never without a user |
| RoleGuard.EffectiveAction | src/components/auth/RoleGuard.tsx:21 | the guard checks the given action, or `view` when none is given |
| RoleGuard.GuardFollowsGrants | src/components/auth/RoleGuard.tsx:28-48 | a guarded page shows exactly when the action is in the role's reference grants |
| ProtectedRoute.Decide | src/components/auth/ProtectedRoute.tsx:14-28 | loading first; without a session a replacing redirect to `/login` carrying the location; otherwise the children |
| ProtectedRoute.ContentNeedsSession | src/components/auth/ProtectedRoute.tsx:18-27 | content is reached exactly when the check is done and a user is present |
| Sidebar.VisibleItems | src/components/layout/AppSidebar.tsx:42-44 | the visible entries keep menu order and are exactly the entries whose resource the role may view |
| Sidebar.AdminAndStaffSeeAll | src/components/layout/AppSidebar.tsx:29-44 | administrators and staff see all four entries |
| Sidebar.ViewerSkipsUsers | src/components/layout/AppSidebar.tsx:29-44 | viewers see dashboard, tickets and settings |
| Sidebar.NoRoleSeesNothing | src/components/layout/AppSidebar.tsx:42-44 | without a role no entry shows |
| Sidebar.IsActive | src/components/layout/AppSidebar.tsx:46-49 | the root entry is active only on the root; any other entry on every location that begins with its path |
| Sidebar.AtMostOneActive | src/components/layout/AppSidebar.tsx:46-49 | no location highlights two entries |
| Sidebar.PrefixWithoutBoundary | src/components/layout/AppSidebar.tsx:46-49 | the root entry is active only on `/`; any other entry is active exactly on locations starting with its path, `/ticketsX` included |
| Sidebar.DetailPageHighlightsSection | src/components/layout/AppSidebar.tsx:46-49 | a ticket page highlights the tickets entry and not the root |
| Sidebar.GetInitials | src/components/layout/AppSidebar.tsx:51-58 | the initials have at most two characters |
| Sidebar.FirstCharsAreWordStarts | src/components/layout/AppSidebar.tsx:52-55 | taking the first character of every space-separated piece picks exactly the characters that start a word |
| Sidebar.InitialsFromWords | src/components/layout/AppSidebar.tsx:51-58 | the initials are the first two word starts, upper-cased |
| Sidebar.TwoWordInitials | src/components/layout/AppSidebar.tsx:51-58 | a two-word name gives its two upper-cased first letters |
| Breadcrumbs.Segments | src/components/layout/Breadcrumbs.tsx:21 | every segment is non-empty and slash-free |
| Breadcrumbs.BuildBreadcrumbs | src/components/layout/Breadcrumbs.tsx:20-52 | one crumb per segment, each equal to the reference crumb for its position |
| Breadcrumbs.Render | src/components/layout/Breadcrumbs.tsx:54-64 | the root shows only the dashboard title; elsewhere the trail is the crumbs |
| Breadcrumbs.UnlinkedCrumbs | src/components/layout/Breadcrumbs.tsx:37-47 | a crumb links exactly when it is not last and not an identifier |
| Breadcrumbs.PathOfIsJoin | src/components/layout/Breadcrumbs.tsx:31-33 | the accumulated path is `/` plus the segments so far joined by `/` |
| Breadcrumbs.NormalLocationSegments | src/components/layout/Breadcrumbs.tsx:21 | a normal-form location splits back into its segments |
| Breadcrumbs.LinksAreAncestors | src/components/layout/Breadcrumbs.tsx:31-47 | every link is a prefix of the location |
| Breadcrumbs.RootHasNoCrumbs | src/components/layout/Breadcrumbs.tsx:21 | the root has no segments |
| Breadcrumbs.TicketPageTrail | src/components/layout/Breadcrumbs.tsx:25-47 | `/tickets/<id>` reads tickets (linked) then ticket details (unlinked) |
| Breadcrumbs.ConstructorTrail | src/components/layout/Breadcrumbs.tsx:24-46 | an inherited key such as `constructor` matches the pattern but is not an identifier; its crumb is a link labelled with the inherited member |
| Breadcrumbs.SectionsAreNavEntries | src/components/layout/Breadcrumbs.tsx:24-28 | the sections with a name are exactly the sidebar entries other than the root, under the same path |
| Breadcrumbs.SectionOf | src/components/layout/Breadcrumbs.tsx:24-28 | only the three sections have a name; every section name matches the identifier pattern |
| Breadcrumbs.IsId | src/components/layout/Breadcrumbs.tsx:37 | an identifier is non-empty and slash-free; a section name or an inherited key is never one |
| Breadcrumbs.PathOf | src/components/layout/Breadcrumbs.tsx:32 | the path is at least as long as the segment count and starts with `/` when there are segments |
| Breadcrumbs.CrumbAt | src/components/layout/Breadcrumbs.tsx:39-46 | the crumb reads "ticket details" exactly for identifiers; a link goes to the path of the segments up to this one |
| Breadcrumbs.NewIsAnId | src/components/layout/Breadcrumbs.tsx:37 | `new` counts as an identifier, so `/tickets/new` gets the ticket-details crumb |
| TicketsService.FilterTickets | src/services/ticketsService.ts:23-43 | the result is the order-preserving subsequence of tickets passing every active filter; with none active it is the store |
| TicketsService.StagesAreOneFilter | src/services/ticketsService.ts:26-43 | the three successive filters equal one filter by their conjunction |
| TicketsService.Passes | src/services/ticketsService.ts:26-43 | with no active filter every ticket passes; a passing ticket matches an active search |
| TicketsService.ResolvedPage | src/services/ticketsService.ts:46 | `page \|\| 1`: an absent or zero page selects page 1, any other page is kept |
| TicketsService.ResolvedPageSize | src/services/ticketsService.ts:47 | `pageSize \|\| 10`: an absent or zero size selects 10, any other size is kept |
| TicketsService.GetTickets | src/services/ticketsService.ts:17-65 | page data passes the filters and fits the page; item i of the page is item (page-1)*size+i of the filtered list, and the page is as long as that window allows; total is the filtered count; the page count is the ceiling of total over size, 0 exactly when nothing matches |
| TicketsService.TotalIndependentOfPage | src/services/ticketsService.ts:54-57 | total and page count do not depend on the page asked for |
| TicketsService.GetTicketById | src/services/ticketsService.ts:70-78 | the first ticket with the id, or none exactly when no ticket has it |
| TicketsService.TicketId | src/services/ticketsService.ts:90 | a generated id is `TKT-` followed by at least three digits denoting the number |
| TicketsService.CommentId | src/services/ticketsService.ts:169 | a comment id is `CMT-` followed by at least three digits denoting the number |
| TicketsService.CreateTicket | src/services/ticketsService.ts:83-100 | exactly one ticket is prepended, carrying the draft's fields and the generated id, created and updated at `now` |
| TicketsService.CreatedTicketIsFound | src/services/ticketsService.ts:88-95 | a lookup of the new id returns the new ticket |
| TicketsService.Merge | src/services/ticketsService.ts:114-118 | each field of the update that is present replaces the ticket's, the others stay, and the update time is `now`; an empty update only refreshes the update time |
| TicketsService.UpdateTicket | src/services/ticketsService.ts:105-124 | fails with "Ticket not found" exactly when no ticket has the id; otherwise only the first match changes, to the merge |
| TicketsService.StatusUpdateFrame | src/services/ticketsService.ts:111-119 | a status-only update rewrites status and update time of that ticket only |
| TicketsService.DeleteTicket | src/services/ticketsService.ts:129-140 | removes the first ticket with the id, keeping order; a no-op when none has it |
| TicketsService.DeleteKeepsOtherLookups | src/services/ticketsService.ts:132-135 | deleting one id leaves the lookup of every other id unchanged |
| TicketsService.GetTicketComments | src/services/ticketsService.ts:145-153 | exactly the comments of the ticket, in order |
| TicketsService.AddTicketComment | src/services/ticketsService.ts:158-183 | appends one comment with the next id, the message and ticket, and the author found by id if any |
| TicketsService.AddedCommentJoinsThread | src/services/ticketsService.ts:148-175 | the new comment ends its own thread and no other thread changes |
| UsersService.FilterUsers | src/services/usersService.ts:28-35 | the order-preserving subsequence of users whose name or email contains the search; no search keeps all |
| UsersService.GetUsers | src/services/usersService.ts:17-55 | defaults 1 and 10 apply only when absent; data fits the page and passes the search; total is the filtered count; the page count is the ceiling |
| UsersService.GetUsersIsWindow | src/services/usersService.ts:38-40 | item i of page p is item (p-1)*size+i of the searched list |
| UsersService.GetUserById | src/services/usersService.ts:60-68 | the first user with the id, or none exactly when no user has it |
| UsersService.CreateUser | src/services/usersService.ts:73-89 | exactly one user is appended; its id is `String(length + 1)`, a decimal without leading zero denoting the old length plus one |
| UsersService.CreatedUserIsFound | src/services/usersService.ts:78-83 | when no earlier user has that id, a lookup of the new id returns the new user |
| UsersService.Merge | src/services/usersService.ts:103-106 | each field of the update that is present replaces the user's, the others stay; an empty update changes nothing |
| UsersService.UpdateUser | src/services/usersService.ts:94-112 | fails with "User not found" exactly when no user has the id; otherwise only the first match changes, to the merge |
| UsersService.EmptyUpdateIsIdentity | src/services/usersService.ts:100-107 | an empty update of an existing user leaves the store as it was |
| UsersService.RoleUpdateFrame | src/services/usersService.ts:100-107 | a role update changes that user's role only and the id still finds it |
| UsersService.DeleteUser | src/services/usersService.ts:117-128 | removes the first user with the id, keeping order; a no-op when none has it |
| UsersService.DeleteKeepsOtherLookups | src/services/usersService.ts:120-123 | deleting one id leaves the lookup of every other id unchanged |
| TicketsPage.Step | src/pages/Tickets.tsx:82-100 | a filter change resets to page 1; a click moves one page only when its button is enabled; the page size never changes, the page never drops below 1 from a valid page, and clicks leave the filters alone |
| TicketsPage.Run | src/pages/Tickets.tsx:298-312 | any sequence of events keeps the page size and keeps a valid page at least 1; a sequence of clicks only leaves the filters as they were |
| TicketsPage.ControlsShown | src/pages/Tickets.tsx:288 | the pagination bar shows exactly when there are at least two pages |
| TicketsPage.PreviousEnabled | src/pages/Tickets.tsx:298-303 | "previous" is enabled only with the bar shown, and then from a valid page exactly when a previous page exists |
| TicketsPage.NextEnabled | src/pages/Tickets.tsx:308-313 | "next" is enabled only with the bar shown; from a page up to the last, exactly when a later page exists |
| TicketsPage.NextPastLastPage | src/pages/Tickets.tsx:308-313 | past the last page "next" stays enabled, a click moves one page further and the label's first row lies beyond its last |
| TicketsPage.DeleteLeavesPastLastPage | src/pages/Tickets.tsx:69-78 | deleting the only ticket of page 3 of 21 leaves page 3 of 2 pages, where "next" leads to page 4 and the label reads "21-20 of 20" |
| TicketsPage.RangeStart | src/pages/Tickets.tsx:291 | the label starts at the first row of the window the service cuts, counted from 1 |
| TicketsPage.RangeEnd | src/pages/Tickets.tsx:292 | the label ends at the window's last row, never past the total |
| TicketsPage.Click | src/pages/Tickets.tsx:253-260 | only a click on the row body navigates; the delete button stops the click and asks to delete that ticket |
| TicketsPage.RunKeepsWellFormed | src/pages/Tickets.tsx:52-58 | no event sequence takes the page below 1 or changes the page size |
| TicketsPage.ReachableWellFormed | src/pages/Tickets.tsx:52-58 | every state reachable from the initial one is well formed |
| TicketsPage.PageStaysInRange | src/pages/Tickets.tsx:299-312 | with a fixed page count the buttons keep the page between 1 and the count |
| TicketsPage.Query | src/pages/Tickets.tsx:52-58 | the service resolves the page's query to the page's own page and size |
| TicketsPage.RangeLabelCountsRows | src/pages/Tickets.tsx:291-292 | on an existing page the label's range counts exactly the rows shown and ends within the total |
| TicketsPage.OffersFor | src/pages/Tickets.tsx:106-107 | create button and empty-state action exactly with tickets/create; delete column exactly with tickets/delete |
| TicketsPage.OffersByRole | src/pages/Tickets.tsx:119-283 | admin gets all three controls, staff may create but not delete, viewers and visitors get none |
| TicketDetail.OffersFor | src/pages/TicketDetail.tsx:127-128 | delete exactly with tickets/delete; comment form and both editors exactly with tickets/update |
| TicketDetail.Render | src/pages/TicketDetail.tsx:130-150 | loading, then error, then missing ticket, then the detail view with the role's offers |
| TicketDetail.OffersByRole | src/pages/TicketDetail.tsx:170-362 | admin gets all controls, staff all but delete, viewers and visitors none |
| TicketDetail.DeleteOnlyForAdmin | src/pages/TicketDetail.tsx:128 | the delete button shows exactly for administrators |
| TicketDetail.ValidateComment | src/pages/TicketDetail.tsx:47-49 | a comment is accepted exactly when its UTF-16 length is 1 to 1000; empty and too long are told apart |
| TicketDetail.BlankCommentAccepted | src/pages/TicketDetail.tsx:48 | a comment of blanks is accepted, since nothing is trimmed |
| TicketDetail.SubmitComment | src/pages/TicketDetail.tsx:107-108 | an invalid message changes nothing; a valid one is added as the signed-in user's |
| TicketDetail.AcceptedCommentShows | src/pages/TicketDetail.tsx:107-108 | an accepted comment ends the ticket's thread with the message as typed |
| TicketDetail.StatusChange | src/pages/TicketDetail.tsx:307-308 | the status editor sends the status and no other field |
| TicketDetail.PriorityChange | src/pages/TicketDetail.tsx:340-341 | the priority editor sends the priority and no other field |
| TicketDetail.EditorChangesOneField | src/pages/TicketDetail.tsx:304-362 | an editor change rewrites its field and the update time, nothing else |
| TicketDetail.AfterDelete | src/pages/TicketDetail.tsx:97-103 | a successful delete leads to `/tickets`, a failed one nowhere |
| NewTicket.LengthIssues | src/pages/NewTicket.tsx:39-48 | a length bound reports too-short exactly below the minimum, too-long exactly above the maximum, nothing in between |
| NewTicket.IssuesFromExact | src/pages/NewTicket.tsx:38-51 | the form is clean exactly when all four checks pass, and each issue is reported exactly when its check fails |
| NewTicket.IssuesExact | src/pages/NewTicket.tsx:38-51 | the same, over trimmed lengths and the enumeration names |
| NewTicket.Validate | src/pages/NewTicket.tsx:38-51 | valid exactly when acceptable; the payload holds the trimmed strings, the parsed choices and no assignee; otherwise at least one issue |
| NewTicket.DefaultsNeedText | src/pages/NewTicket.tsx:62-67 | the untouched form fails on title and description only; its status and priority are `open` and `medium` |
| NewTicket.TrimmedBeforeChecking | src/pages/NewTicket.tsx:41-46 | blanks around a value neither count nor reach the payload |
| NewTicket.FormNeedsCreateGrant | src/pages/NewTicket.tsx:92 | the form shows exactly to administrators and staff |
| NewTicket.Submit | src/pages/NewTicket.tsx:70-89 | an invalid form submits nothing; a valid one creates the ticket and opens `/tickets/<id>` |
| NewTicket.SubmitOpensNewTicket | src/pages/NewTicket.tsx:75 | the page opened shows the new ticket with the trimmed title under a ticket-details crumb |
| NewTicket.TicketIdIsId | src/services/ticketsService.ts:90 | generated ticket ids look like identifiers to the breadcrumbs |
| UsersPage.Guard | src/pages/Users.tsx:91 | the page opens exactly for a signed-in administrator or staff member; everyone else gets the access-denied card |
| UsersPage.Listing | src/pages/Users.tsx:54-57 | the page asks for page 1 of size 10 and the total is the store's size |
| UsersPage.ListingShowsFirstTen | src/pages/Users.tsx:54-57 | the list shows the first ten users in store order |
| UsersPage.AvatarText | src/pages/Users.tsx:150-153 | the avatar shows the first character of every word, not upper-cased and not cut |
| UsersPage.OffersFor | src/pages/Users.tsx:86-88 | create button and empty-state action exactly with users/create; the actions column exactly with users/update or users/delete |
| UsersPage.RowOffersFor | src/pages/Users.tsx:163-218 | the role selector shows exactly on the edited row with users/update; delete exactly with users/delete on a row other than the signed-in user |
| UsersPage.RowButtonsNeedColumn | src/pages/Users.tsx:201-218 | a row's buttons only appear inside the actions column |
| UsersPage.OffersByRole | src/pages/Users.tsx:86-88 | administrators get every control; staff and viewers none |
| UsersPage.AdminDeletesOthersOnly | src/pages/Users.tsx:218 | an administrator may delete every row but their own |
| UsersPage.ToggleEdit | src/pages/Users.tsx:208-211 | the edit button opens its row's selector unless that row is the one open, which it closes |
| UsersPage.Step | src/pages/Users.tsx:59-261 | only a confirmed deletion or a role choice touches the store, which never grows; a row newly awaiting deletion is never the signed-in user's and needs the delete grant; opening a selector needs the update grant |
| UsersPage.Run | src/pages/Users.tsx:59-261 | the store never grows over a session, and a session without confirmations or role choices leaves it as it was |
| UsersPage.OneSelectorAtATime | src/pages/Users.tsx:163-211 | after a toggle no two rows show a role selector |
| UsersPage.StepKeepsSelfSafe | src/pages/Users.tsx:62-79 | no interaction puts the signed-in user up for deletion or removes their account |
| UsersPage.NeverDeletesSelf | src/pages/Users.tsx:218-261 | over any sequence of interactions the signed-in user's account stays |
| UsersPage.FreshPageKeepsSelf | src/pages/Users.tsx:50-51 | from a fresh page the signed-in user survives any session |
| UsersPage.ReadOnlyUnlessAdmin | src/pages/Users.tsx:86-88 | for staff and viewers no interaction changes the page state or the store |
| UsersPage.RoleChangeApplies | src/pages/Users.tsx:73-80 | a successful role change closes the selector and gives the row its new role, all else kept |
| Auth.Login | src/contexts/AuthContext.tsx:83-100 | succeeds exactly on a demo email with its password; the user becomes the account's record; remember-me writes local storage, otherwise session storage; failure is "Invalid email or password" |
| Auth.DemoLogins | src/contexts/AuthContext.tsx:24-49 | exactly the three demo pairs sign in, as admin, staff and viewer |
| Auth.LoginStoresAccountUser | src/contexts/AuthContext.tsx:89-96 | the signed-in user is one of the demo records, and the stored copy is that record |
| Auth.LoginIdempotent | src/contexts/AuthContext.tsx:83-97 | signing in again with the same credentials changes nothing |
| Auth.Logout | src/contexts/AuthContext.tsx:111-124 | the user is cleared and the key leaves both storage areas; other keys stay |
| Auth.LogoutIdempotent | src/contexts/AuthContext.tsx:111-124 | logging out twice is logging out once |
| Auth.IsAuthenticated | src/contexts/AuthContext.tsx:129 | the session counts as authenticated exactly when it holds a user |
| Auth.CheckAuth | src/contexts/AuthContext.tsx:56-75 | loading ends and both storage areas are kept; a stored user becomes the session user, unparsable text signs out, an absent or empty entry leaves the user as it was |
| Auth.Reload | src/contexts/AuthContext.tsx:51-53 | a page load starts without a user and loading, with both storage areas as the browser kept them |
| Auth.Restart | src/contexts/AuthContext.tsx:77-79 | after the start-up check loading has ended, storage is untouched, and a user is signed in exactly when local storage holds a serialized one, which is then that user |
| Auth.RestartReadsLocalOnly | src/contexts/AuthContext.tsx:62-65 | after a reload who is signed in depends on local storage alone |
| Auth.RememberedLoginSurvives | src/contexts/AuthContext.tsx:92-93 | a remembered sign-in survives a reload as the same user |
| Auth.ForgottenLoginOnReload | src/contexts/AuthContext.tsx:94-96 | a sign-in that was not remembered is lost on reload, or replaced by an older remembered user |
| Auth.StaleRememberedUser | src/contexts/AuthContext.tsx:92-96 | admin remembered, then viewer not: a reload brings back the administrator |
| Auth.LogoutSurvivesReload | src/contexts/AuthContext.tsx:114-115 | after a logout a reload finds nobody |
| Auth.ReloadThenRoute | src/components/auth/ProtectedRoute.tsx:18-27 | right after a reload pages show loading; after the check they show content exactly when a user was remembered, otherwise redirect to login |
| Auth.LoginOpensRoutes | src/contexts/AuthContext.tsx:129 | a successful sign-in opens the protected pages at once |
| Text.Split | src/components/layout/Breadcrumbs.tsx:21 | `split` on one character: the pieces hold no separator and join back to the input |
| Text.SplitJoin | src/components/layout/AppSidebar.tsx:53 | splitting a join of separator-free pieces gives the pieces back |
| Text.Trim | src/pages/NewTicket.tsx:41 | the result is an infix with only whitespace around it and non-blank ends |
| Text.TrimFinds | src/pages/NewTicket.tsx:46 | trim recovers any non-blank-ended infix surrounded by whitespace |
| Text.TrimIdempotent | src/pages/NewTicket.tsx:41 | trimming twice is trimming once |
| Text.Utf16Length | src/pages/TicketDetail.tsx:48 | the UTF-16 length lies between the code-point count and twice it |
| Text.LowerCaseIdempotent | src/services/ticketsService.ts:27 | lower-casing twice is lower-casing once |
| Text.NatToString | src/services/usersService.ts:80 | `String(n)` is a digit string without leading zero denoting n |
| Text.PaddedNumberValue | src/services/ticketsService.ts:90 | zero-padding keeps the digits' value |
| Paging.CeilDiv | src/services/ticketsService.ts:57 | the smallest count of pages covering the items |
| Paging.Slice | src/services/ticketsService.ts:50 | `slice` clamps its end to the length and keeps order |
| Paging.Paginate | src/services/ticketsService.ts:46-58 | the page's items are the window starting at (page-1)*size, at most size long |
| Paging.PageNonEmptyIff | src/services/usersService.ts:38-47 | a page has data exactly when its number is within the page count |
| Paging.PagesCoverItems | src/services/ticketsService.ts:46-57 | the pages 1 to the page count, put together, are the whole list |

## Left out

- HTTP: every non-mock branch of the services and of the session (`api.get`, `api.post` and so on) calls a server that is not part of this model.
- Timing: `delay`, react-query caching and invalidation, pending flags and toasts are left out. A mutation completes within the step that starts it.
- Dates: creation and update times are the opaque `now` parameter; date formatting is left out.
- Rendering: JSX, icons, styles and translated labels are left out. The translated section names are assumed non-empty, so `pathLabels[segment] || segment` picks the section name for the three sections.
- Letter case: `toLowerCase` and `toUpperCase` fold ASCII letters only, not the full Unicode mapping.
- Object lookups: `mockUsers[email]` is a finite map. An inherited key such as `constructor` finds a member without a `password`, so signing in with it fails as for an unknown address.
- Breadcrumbs.BuildBreadcrumbs: a segment that names an inherited member of `Object.prototype` gets a crumb labelled `InheritedMember(key)`. What React shows for a function or object as a label is not modelled.
- Stored values: local storage holds a serialized user, the empty string or unparsable text. JSON values that parse to something other than a user record are not modelled.
- UsersService.CreatedUserIsFound: requires that no earlier user carries the new id. After a deletion `String(length + 1)` can repeat an existing id, and the lookup then finds the older user. The same holds for ticket ids; id uniqueness is not claimed.
- UsersService.GetUsers: requires a page size of at least 1 when one is given. A size of 0 divides by zero in `Math.ceil`, and a negative page is outside the `nat` parameters. Page 0 is modelled: its window ends at 0, so it is empty.
- Pagination clicks: each click sees the page count of the response on screen. While no response is loaded the pagination bar is hidden, so no click happens.
- UsersPage.AvatarText: works on code points, whereas `n[0]` takes one UTF-16 code unit, so a word starting with a character outside the Basic Multilingual Plane gives a lone surrogate in the source and the whole character in the model.
- Sidebar.GetInitials: works on code points, whereas `n[0]` takes one UTF-16 code unit. The two differ only for characters outside the Basic Multilingual Plane.
- TicketsService.CreateTicket: one `now` stands for both `new Date().toISOString()` readings at lines 91-92 of `src/services/ticketsService.ts`. The model promises equal creation and update times, which the source does not when the clock ticks between the two calls.
- Comments: an unknown author id gives a comment without an author, as the `find(...)!` cast lets through.
- The Settings and Dashboard pages, the login form's e-mail syntax check and the HTTP client are not part of this model.

## Notes

- The header comment of `src/lib/rbac.ts` calls the viewer "read-only". The table grants the viewer `settings/update` (line 56), and the model follows the table (`Rbac.ConcreteScenarios`).
- Login without "remember me" writes session storage, but `checkAuth` reads local storage only. So a reload signs such a user out (`Auth.ForgottenLoginOnReload`). If an older remembered user is still in local storage, that user comes back instead (`Auth.StaleRememberedUser`).
- `/tickets/new` matches the identifier pattern, so its trail reads "ticket details" (`Breadcrumbs.NewIsAnId`).
- `pathLabels` is a plain object, so the lookup in `isId` also finds the members every object inherits. `/constructor/5` therefore gives a linked crumb for `constructor` whose label is the inherited constructor, not a "ticket details" crumb (`Breadcrumbs.ConstructorTrail`).
- The delete mutation on the ticket list refreshes the list but keeps the page number. Deleting the last ticket of the last page leaves the page past the new last page, where "next" is still enabled and the label's start exceeds its end (`TicketsPage.NextPastLastPage`, `TicketsPage.DeleteLeavesPastLastPage`).
