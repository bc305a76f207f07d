# Futuboard: ordering, membership, board access and drag-and-drop, in Dafny

Futuboard is a collaborative kanban board. A board holds ordered columns,
a column holds ordered tickets, tickets and boards carry users through
usergroups, and a board is guarded by a password that buys a bearer token.
This project models the parts of its Django backend and React frontend
whose behaviour can be stated without the framework:

- **The ordering engine** (`ordering.dfy`, module `Ordering`). It covers
  which tickets sit in a column, and the `order`/`ordernum` numbers they
  carry. It also covers the two sequential rewrites the ticket PUT runs
  over a client's id list: reparent the listed tickets into the column,
  then number them by list position. `Contiguous` states what "numbered
  0 .. n-1" means.
- **The handlers of `backend/futuboard/views/views.py`** (`views.dfy`,
  module `Views`). They are methods on `Store`, a class whose fields stand
  for the database tables:
  - boards, columns and swimlane columns;
  - tickets, and each ticket's usergroup;
  - usergroup membership rows and users;
  - the counters that hand out new usergroup and membership-row ids.

  Covered: column and ticket creation, the ticket reorder/move PUT, ticket
  GET, ticket PUT and DELETE, column PUT, and the users-on-ticket PUT.
  Every state-changing method's contract ties the new table contents to a
  specification function of the old ones (`MoveOutcome`, `ReplaceOutcome`,
  …). Lemmas about those functions state what the handler promises.
  A handler that fails half way keeps what it already saved, as the source
  does.
- **The older handlers of `backend/futuboard/views.py`** (`legacy_views.dfy`,
  module `LegacyViews`). Its ticket PUT synchronises a column with the
  client's list, in three steps:
  1. delete the column's unlisted tickets;
  2. create the listed tickets that exist nowhere;
  3. renumber the listed tickets.

  Also covered: its column and ticket POSTs, and its column PUT, which
  reparents tickets.
- **The board endpoints of `backend/futuboard/views/boardViews.py`**
  (`board_views.dfy`, module `BoardViews`):
  - the password check and password change are pure decision functions
    (`Login`, `PasswordChange`);
  - board creation and the partial updates of title, background and ticket
    template are methods on `BoardTable`.

  Hashing, verification, token issuing and token checking are not part of
  this model. They are function parameters (`hash`, `verify`, `encode`) and
  a `TokenCheck` outcome. Lemmas that need them to agree take
  `forall q :: verify(q, hash(q))` as a hypothesis.
- **The drag-and-drop handler of `frontend/src/pages/BoardContainer.tsx`**
  (`drag_drop.dfy`, module `DragDrop`). Every splice there works on a fresh
  copy, so lists are sequence values.
  - `Remove` and `Insert` are `splice` with its clamping of a position past
    the end.
  - `Reorder` is `reorder`.
  - `TaskDrop` and `UserDrop` return the lists and requests a drop sends to
    the server.

`schema.dfy` (module `Schema`) holds the shared pieces:
- the row datatypes and the `Status` of a handler's answer (`Ok`,
  `NotFound`, `Unauthorized`, `BadRequest`, `ServerError`, with the
  source's messages);
- `Option` with `GetOr`, which is `request.data.get(key, current)`;
- how Python sees a `size` field (`SizeInput`).

Three behaviours of the code worth knowing:
- **Board creation does not use the client's id.** `all_boards` at
  views/boardViews.py:21-27 never passes the client's `id` to the new
  board, so the key is one the database assigns; `BoardTable.Create` takes
  it as a parameter.
- **Ticket sizes differ between the two ticket POSTs.** The new POST turns
  a `null` size into 0 (`int(size) if size else 0`). The legacy POST fails
  on it (`int(size) if size != '' else 0`).
- **The legacy ticket PUT does not move tickets.** A listed ticket that
  exists in another column stays there and only its `order` changes.
  Moving a ticket between columns therefore takes two PUTs, and the result
  depends on which the server handles first:
  `LegacyViews.MoveDependsOnRequestOrder` shows both orders. If the source
  column's PUT comes first, it deletes the ticket, and the destination's
  PUT re-creates it from the client's entry. The result is a new row under
  the same id: its corner note and usergroup are gone. In the other order
  the ticket is deleted.

## Model

| member | source | states |
|---|---|---|
| `Schema.Patched` | backend/futuboard/views/views.py:190-195 | a partial ticket update never changes the ticket's column or order |
| `Schema.PatchedIdempotent` | backend/futuboard/views/views.py:190-195 | applying the same partial update twice is the same as applying it once |
| `Schema.EmptyPatchKeeps` | backend/futuboard/views/views.py:190-195 | an update with no keys leaves the ticket as it was |
| `Ordering.ReparentedAt` | backend/futuboard/views/views.py:119-123 | the first loop of the ticket PUT keeps the set of tickets, moves exactly the listed existing tickets into the column and changes nothing else about them |
| `Ordering.RenumberedFrame` | backend/futuboard/views/views.py:126-129 | the renumbering loop keeps the set of tickets, changes only `order`, and leaves unlisted tickets untouched |
| `Ordering.RenumberedOrder` | backend/futuboard/views/views.py:126-129 | with no id listed twice, the ticket listed at index i ends with order i |
| `Ordering.MoveAndRenumber` | backend/futuboard/views/views.py:119-129 | after both loops every listed ticket is in the column with order equal to its index, every unlisted ticket is unchanged, and a list naming all of the column's tickets leaves the column numbered 0 .. n-1 |
| `Views.NewTicket` | backend/futuboard/views/views.py:138-150 | the new ticket row exists exactly when title, description and a usable size are given; it is in the column with the given order and 8 story points, carries the request's title, description and size (a null or empty size is 0), and its colour and corner note default to "white" and "" |
| `Views.AddColumnKeepsNumbering` | backend/futuboard/views/views.py:83-95 | a new column takes ordernum = number of columns on its board, so a board numbered 0 .. n-1 stays so, and other boards' numbering is unchanged |
| `Views.AddTicketKeepsNumbering` | backend/futuboard/views/views.py:138-152 | a new ticket takes order = number of tickets in its column, so a column numbered 0 .. n-1 stays so, and other columns' numbering is unchanged |
| `Views.MoveTicketsPut` | backend/futuboard/views/views.py:114-135 | the ticket PUT succeeds exactly when every listed ticket exists (and the column does, for a non-empty list); on success listed tickets are in the column with order = index and the others unchanged; on failure no order changed and the tickets before the missing one were already moved |
| `Views.NewRowsAt` | backend/futuboard/views/views.py:330-332 | the rows saved for the listed users are numbered next .. next+n-1 and the row at next+i names the i-th listed user |
| `Views.ReplaceTicketUsersPut` | backend/futuboard/views/views.py:313-338 | the users PUT succeeds exactly when the ticket has a usergroup and every listed user exists; then the group's rows are exactly one per listed user, its users are exactly the listed ones (none for an empty list) and other groups' rows are untouched |
| `Views.DeleteTicketClearsGroup` | backend/futuboard/views/views.py:176-183 | deleting the members of a ticket's usergroup leaves that group no rows and keeps every row of a user outside the group, unchanged |
| `Views.UpdateTicketKeepsNumbering` | backend/futuboard/views/views.py:188-196 | a partial ticket update leaves every column's order numbers as they were |
| `Views.Store.AddColumn` | backend/futuboard/views/views.py:81-110 | column POST: 404 "Column creation failed" for a missing board, a body without `title` or `swimlane`, or a taken id; otherwise the column is added with ordernum = count and, for a swimlane column, the four swimlane columns "To Do", "Doing", "Verify", "Done" with ordernums 0..3 |
| `Views.Store.AddTicket` | backend/futuboard/views/views.py:136-162 | ticket POST: 404 "Cannot create Ticket" on a missing column, a taken id or an unusable body; otherwise the ticket is added with order = count and gets a fresh usergroup |
| `Views.Store.MoveTickets` | backend/futuboard/views/views.py:114-135 | the two loops of the ticket PUT produce exactly `MoveOutcome`: status and tickets, including the partial moves on failure |
| `Views.Store.ListTickets` | backend/futuboard/views/views.py:163-169 | ticket GET returns each ticket of the column exactly once, in non-decreasing order |
| `Views.Store.UpdateTicket` | backend/futuboard/views/views.py:171-201 | ticket PUT: 404 "Ticket not found" unless the ticket is in the column; otherwise only that ticket changes, by the partial update |
| `Views.Store.DeleteTicket` | backend/futuboard/views/views.py:171-186 | ticket DELETE: removes the ticket, its usergroup, every user of that usergroup and those users' rows; every other ticket stays |
| `Views.Store.UpdateColumn` | backend/futuboard/views/views.py:203-218 | column PUT: 404 "Column not found" unless the column is on the board; otherwise only its title changes, and only when given |
| `Views.Store.DeleteRows` | backend/futuboard/views/views.py:320-322 | the delete loop removes exactly the group's rows |
| `Views.Store.ReplaceTicketUsers` | backend/futuboard/views/views.py:313-338 | the users PUT produces exactly `ReplaceOutcome`: status, rows and row counter, including rows saved before a missing user |
| `Views.Store.AddRows` | backend/futuboard/views/views.py:330-332 | saves one row per listed user in turn, stopping at the first user that does not exist |
| `LegacyViews.NewTicket` | backend/futuboard/views.py:120-131 | the legacy ticket row exists exactly when title, description and a usable size are given (an empty size is 0, a null one fails); it carries the request's title, description and size, is white with 8 story points and an empty corner note, with order = count |
| `LegacyViews.CreateMissingStops` | backend/futuboard/views.py:92-105 | once creation has failed, later entries change nothing |
| `LegacyViews.CreateMissingFrame` | backend/futuboard/views.py:92-105 | the creation loop keeps every existing ticket unchanged and adds only listed ids |
| `LegacyViews.CreateMissingOk` | backend/futuboard/views.py:92-105 | with no id listed twice, creation gets through the list exactly when each entry names an existing ticket or the column exists and the entry has its fields |
| `LegacyViews.CreateMissingAt` | backend/futuboard/views.py:92-105 | after a complete creation loop every listed id names a ticket, and each new one is built in the column from its own entry |
| `LegacyViews.SyncPutDeletesUnlisted` | backend/futuboard/views.py:84-89 | whatever the list and the outcome, the legacy ticket PUT deletes the column's unlisted tickets, and every ticket left existed before or is listed |
| `LegacyViews.SyncPut` | backend/futuboard/views.py:79-117 | legacy ticket PUT, for a list that names no id twice: success exactly when every listed ticket exists or can be created; then order = index, an existing ticket keeps its column and other fields, a new one is created in the column, and unlisted tickets elsewhere are unchanged |
| `LegacyViews.MoveDependsOnRequestOrder` | backend/futuboard/views.py:84-111 | two legacy PUTs that move a ticket between columns: when the source column's PUT is handled first, it deletes the ticket and the destination's PUT re-creates it from the client's entry, a new row with an empty corner note (the whole table is that one row); when the destination's is handled first, the ticket is deleted |
| `LegacyViews.LegacyStore.AddColumn` | backend/futuboard/views.py:56-75 | legacy column POST: ordernum = count on the board, empty description and colour, no swimlane flag; 404 "Column creation failed" for a missing board, a body without `title`, or a taken id |
| `LegacyViews.LegacyStore.AddTicket` | backend/futuboard/views.py:118-138 | legacy ticket POST: order = count in the column; 404 "Cannot create Ticket" on a missing column, a taken id or an unusable body |
| `LegacyViews.LegacyStore.SyncTickets` | backend/futuboard/views.py:79-117 | the delete, create and renumber steps produce exactly `SyncOutcome`, including what was created before a failure |
| `LegacyViews.LegacyStore.UpdateColumn` | backend/futuboard/views.py:167-191 | legacy column PUT: 404 "Column not found" unless the column is on the board; the title changes only when given; a non-empty `ticket_ids` moves exactly the listed existing tickets into the column, with their order unchanged; otherwise no ticket changes |
| `BoardViews.TemplatePatchedFields` | backend/futuboard/views/boardViews.py:162-169 | each default-ticket field takes the request's value when present and keeps its value otherwise; an empty request changes nothing; applying it twice equals once |
| `BoardViews.Login` | backend/futuboard/views/boardViews.py:41-56 | password check: a generic 500 "Internal Server Error" exactly when the body has no password; 404 "Board does not exist" for a missing board; otherwise success exactly when the password verifies against the stored hash, with the board's token exactly on success |
| `BoardViews.PasswordChange` | backend/futuboard/views/boardViews.py:123-153 | the password change succeeds exactly when the token passes, the board exists, the old password verifies and new = confirm; then only the hash changes, to hash(new); otherwise nothing changes |
| `BoardViews.PasswordChangeOrder` | backend/futuboard/views/boardViews.py:126-138 | the token check precedes everything, a missing board is 404, a wrong old password is 401 even when new and confirm also differ, and 400 "Passwords do not match" happens only after the old password was right |
| `BoardViews.ChangeThenLogin` | backend/futuboard/views/boardViews.py:123-153 | after a successful change the new password opens the board with a token; after a refused one every password check answers as before |
| `BoardViews.CreateThenLogin` | backend/futuboard/views/boardViews.py:19-31 | a board created with password p opens with p and yields its token |
| `BoardViews.BoardTable.Create` | backend/futuboard/views/boardViews.py:18-31 | board POST stores hash(password), never the password, with description "" and salt ""; a missing title or password or a taken key is a 500 |
| `BoardViews.BoardTable.CheckPassword` | backend/futuboard/views/boardViews.py:41-56 | the password check on the table answers 200 exactly for an existing board, success exactly when the password verifies, token exactly on success |
| `BoardViews.BoardTable.Fetch` | backend/futuboard/views/boardViews.py:57-71 | board GET returns the board exactly when the token passes and the board exists; a failed token check gives its 401 (the token check itself accepts every GET, so in practice only a missing board fails) |
| `BoardViews.BoardTable.UpdateBackground` | backend/futuboard/views/boardViews.py:73-89 | board PUT: token check, then 404, then only the background colour changes, and only when given |
| `BoardViews.BoardTable.UpdateTitle` | backend/futuboard/views/boardViews.py:100-120 | title PUT: token check, then 404, then only the title changes, and only when given |
| `BoardViews.BoardTable.ChangePassword` | backend/futuboard/views/boardViews.py:123-153 | the password PUT's checks and update produce exactly `PasswordChange` |
| `BoardViews.BoardTable.UpdateTemplate` | backend/futuboard/views/boardViews.py:156-181 | ticket-template PUT: token check, then 404, then only the template fields change, each only when given |
| `DragDrop.Remove` | frontend/src/pages/BoardContainer.tsx:63-65 | splicing out index i of a copy drops exactly that element and shifts the later ones down; an index past the end changes nothing |
| `DragDrop.Insert` | frontend/src/pages/BoardContainer.tsx:71-73 | splicing x in at i (or at the end, past it) of a copy puts x there, keeps the earlier elements and shifts the later ones up |
| `DragDrop.ReorderSpec` | frontend/src/pages/BoardContainer.tsx:158-164 | `reorder` keeps length and elements (a permutation), puts the moved element at the end index (or last), keeps the others in relative order, and dragging back restores the list |
| `DragDrop.SameColumnMove` | frontend/src/pages/BoardContainer.tsx:52-58 | a move within a column sends one list, that column's, a permutation with the moved task at the drop position |
| `DragDrop.CrossColumnMove` | frontend/src/pages/BoardContainer.tsx:60-75 | a cross-column move sends the source list without the task and the destination list with it at the drop position; no task is lost or duplicated and both lists keep the others' order |
| `DragDrop.MovingName` | frontend/src/pages/BoardContainer.tsx:85-86 | the moving user's name is found exactly when a user with the dragged id is in the source list, and is the name of the first such user |
| `DragDrop.AcceptedUserDrop` | frontend/src/pages/BoardContainer.tsx:77-118 | an accepted user drop sends a destination task list of at most 3 users with distinct names, and posts a user only to a task with fewer than 3 users none of which has that name |
| `DragDrop.RefusedUserDrop` | frontend/src/pages/BoardContainer.tsx:81-92 | a user drop onto a task that already has 3 users, or a user of the moving user's name, sends no request |
| `DragDrop.SameDroppableUserDrop` | frontend/src/pages/BoardContainer.tsx:93-118 | a user dragged within one task or within the user list sends nothing |
| `DragDrop.OnDragEnd` | frontend/src/pages/BoardContainer.tsx:30-34 | a drop with no destination, or onto its own place, sends nothing; a task drag sends only task lists and a user drag only user requests |

## Left out

- The Django ORM, serializers, routing and HTTP objects. Handlers answer a
  `Status`, and the tables are maps on a class. A missing body key
  is modelled where a handler reads it (an `Option` parameter), with the
  answer the source gives: its own `try`'s message, or the framework's
  generic 500 when the lookup is outside any `try`. The exceptions are
  listed below.
- Passwords and tokens: `hash_password`, `verify_password`, `encode_token`
  and `token_access_failed` live in a verification module that is not part
  of this model.
  - They are parameters; JWT signing and expiry are not modelled.
  - A refusal the token check answers itself is taken to be a 401.
  - `hash_password` is salted, so the model cannot state it is a
    function of the password. The lemmas assume only
    `verify(p, hash(p))`.
- The models module is not part of this model. Three assumptions stand in
  for what it would say:
  - Creating a column, ticket or board under a key already in use fails;
    this is how a primary key with a default behaves.
  - Deleting a user deletes its membership rows.
  - Deleting a ticket deletes its usergroup.
- Board DELETE (views/boardViews.py:91-97): what it removes depends on
  cascade rules in the models module.
- Board GET and the board list, except `BoardTable.Fetch`.
- The user-list endpoints of views/views.py: the board's users (220-243),
  user DELETE (290-299), and the GET and POST of `get_users_from_ticket`.
- The first `get_users_from_ticket` (views/views.py:245-288): the second
  definition at line 302 shadows it.
- The board handlers of views/views.py (13-70). Those of
  views/boardViews.py replace them.
- The legacy `update_ticket` (views.py:146-165): it is the live partial
  update without the corner note, which `Schema.Patched` already covers.
- Legacy board handlers (views.py:11-45).
- The column-reorder PUT: its handler is not among the modelled files.
- Creation timestamps and `print` calls. Whitespace and sign handling of
  Python's `int()` are folded into `SizeInput.Number`/`NotNumeric`.
- Missing identifier keys: a column POST without `columnid`, a ticket POST
  without `ticketid`, entries of a ticket PUT without a `ticketid` key,
  and entries of the users PUT without a `userid` key. The last is a 404
  "User update failed" that, past the first entry, comes after the group's
  rows were deleted and the earlier rows saved again. Identifiers are
  parameters of the methods, so a body always has them.
- Legacy rows: the legacy POSTs never set a ticket's corner note or a
  column's swimlane flag. The model assumes the database defaults, an
  empty corner note and `false`.
- Legacy usergroups: `LegacyStore` holds no usergroups, so it does not
  show that deleting a ticket through the legacy ticket PUT (`Pruned`)
  also removes its usergroup, as ticket DELETE does.
- The type checks the database applies to `storypoints`/`size` values in a
  partial update: values are taken as integers.
- Concurrency: handlers run one at a time, and interleaved requests are not
  modelled. `MoveDependsOnRequestOrder` shows only the effect of the two
  orders in which two whole requests can be handled.
- In BoardContainer.tsx:
  - rendering, hooks, the Redux cache, the login effect and `alert`;
  - the requests themselves, which are returned as data rather than sent;
  - `reorder` from a start index past the end (which inserts `undefined`)
    and drags from an index the list does not have. `Reorder`, `TaskDrop`
    and `UserDrop` require the source index to be in its list, which the
    drag library guarantees.
- `DragDrop.AcceptedUserDrop`: the guarantee is stated for the request the
  drop sends. The 3-user limit and distinct names on the server are not
  stated, because the server PUT does not check them.
