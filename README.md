# Trello clone backend: ordering engine, handlers and guards

This project models the core of a small Trello-style backend in Dafny. The backend is a Flask + SQLAlchemy service. Users own **boards** and can be added to other users' boards as **members**. A board holds ordered **lists**, and a list holds ordered **cards**.

Every list and every card stores an integer `position` among its siblings. The siblings of a card are the cards of its list; the siblings of a list are the lists of its board. One helper module keeps these positions in order when rows are inserted, deleted or moved. The intended invariant is that a parent with N children uses exactly the positions 0..N-1.

The model has these modules:

- `PositionHelpers` (`position_helpers.dfy`) models `backend/src/utils/position_helpers.py`.
  - An ORM table is a class `Table<T>`. Its field `rows: map<int, Row<T>>` maps a primary key to the row's parent id, its position and its own columns.
  - Each helper is a method that updates `rows` in place. Each is proved against a specification function: `Inserted`, `Compacted` or `Reordered`.
  - The shared loop `for item in items: item.position += delta` is `Table.ShiftPositions`. It is a `while` loop with invariants, proved equal to the map function `Shift`.
  - `get_next_position` and `validate_position` are functions over the table.
- `Density` (`density.dfy`) holds the lemmas about those specification functions.
  - The invariant is the predicate `Dense`.
  - It covers what insert, delete, same-parent move and cross-parent move do to the invariant and to the siblings' relative order.
  - It also covers the cases where the code as written breaks the invariant.
- `Models` (`models.dfy`) holds:
  - the status codes;
  - the row contents of cards, lists, boards and memberships;
  - the store `Db`: two tables, a board map and the membership rows;
  - the store invariant `Db.Valid`: every card's list, every list's board and every membership's board exists, and in both tables no position is negative and no two siblings share a position.
- `CardRoutes` (`cards.dfy`) and `ListRoutes` (`lists.dfy`) model the handlers of `backend/src/routes/cards.py` and `backend/src/routes/lists.py`.
  - Each handler is a method on `Db`.
  - Its contract gives the status code for every input and the new table, in terms of the specification functions.
- `BoardAccess` (`board_access.dfy`) models the decorators `require_board_access` and `require_board_owner` as functions. A decorator wraps a handler, which here is a function of the route's keyword arguments.
- `BoardRoutes` (`boards.dfy`) models the board handlers of `backend/src/routes/boards.py`:
  - the owner-then-member merge of the board listing;
  - create and update;
  - the member-listing guard;
  - adding and removing members.
- `Auth` (`auth.dfy`) models `backend/src/routes/auth.py`:
  - the e-mail pattern;
  - the password rule;
  - the order of checks in `register` and `login`.

  The e-mail pattern is given two ways. One is a declarative description of what the anchored regular expression matches, including Python's `$` before a final newline. The other is a direct matcher. The two are proved equal.

Request bodies are modelled as follows:

- A JSON value that may be missing is an `Option`.
- A JSON value that may also be `null` is a `Field`: `Absent`, `Null` or `Given(v)`.
- Python truthiness of an optional string is `Truthy`.

Every handler returns the HTTP status it would send. The JSON it would send is not modelled.

## Model

| member | source | states |
|---|---|---|
| PositionHelpers.Table.ShiftPositions | backend/src/utils/position_helpers.py:28-29 | Adds `delta` to the position of exactly the queried rows. Every other row and every key stays as it was. |
| PositionHelpers.Table.AdjustPositionsOnInsert | backend/src/utils/position_helpers.py:9-29 | Every child of the parent at or after the insert slot moves up by one. Nothing else changes. |
| PositionHelpers.Table.CompactPositionsOnDelete | backend/src/utils/position_helpers.py:32-52 | Every child of the parent strictly after the deleted slot moves down by one. Nothing else changes. |
| PositionHelpers.Table.ReorderOnMove | backend/src/utils/position_helpers.py:55-107 | Within one parent, the window between the old and new slot shifts by one toward the vacated slot, and the item itself is excluded. Across parents, this is a compaction of the old parent followed by an insert shift in the new one. |
| PositionHelpers.Table.Relocate | backend/src/routes/cards.py:105-109 | The move step of every move handler: the reorder of `reorder_on_move` from the item's stored parent and slot, then the item's own parent and position set to the new ones. Every other column is kept. |
| PositionHelpers.MaxPosition | backend/src/utils/position_helpers.py:122-126 | The SQL maximum is `None` exactly when the parent has no children. Otherwise it is a position some child holds and no child's position exceeds it. |
| PositionHelpers.NextPosition | backend/src/utils/position_helpers.py:110-127 | `(max or -1) + 1`: 0 when the parent has no children or its maximum is 0, otherwise one past the maximum. Any non-zero result lies above every child's position. |
| PositionHelpers.ValidatePosition | backend/src/utils/position_helpers.py:130-151 | A missing position means the append slot. A negative position becomes 0, and a non-negative one is kept unchanged, with no upper bound. |
| PositionHelpers.Table.Add | backend/src/models/card.py:8 | A new row gets a primary key not yet in use, and every existing row is kept. |
| PositionHelpers.Table.Delete | backend/src/routes/cards.py:127 | Exactly the given row is removed. |
| PositionHelpers.Table.DeleteChildren | backend/src/models/list.py:17 | The delete-orphan cascade removes exactly the children of the parent and leaves every other row unchanged. |
| Density.NextPositionOnDense | backend/src/utils/position_helpers.py:110-127 | On a parent holding 0..N-1, the append slot is N, except that a parent whose only child is at 0 gets 0, because a maximum of 0 is falsy. |
| Density.AppendToSingletonLandsFirst | backend/src/utils/position_helpers.py:127 | Appending to a parent whose only child is at 0 resolves to slot 0. The insert shift pushes the old child to 1, so the new item lands first. |
| Density.EverySlotHeld | backend/src/utils/position_helpers.py:110-127 | On a dense parent, every slot 0..N-1 is held by some child, by the pigeonhole principle. |
| Density.InsertKeepsDensity | backend/src/utils/position_helpers.py:9-29 | An insert shift at p with 0 <= p <= N, followed by storing the new row at p, gives a parent holding 0..N with one more child. Every old child keeps its relative order. |
| Density.InsertPastEndLeavesGap | backend/src/utils/position_helpers.py:148-151 | A position above N passes validation unchanged, and inserting there leaves the parent without density. |
| Density.DeleteKeepsDensity | backend/src/utils/position_helpers.py:32-52 | Deleting a child and compacting behind it leaves 0..N-2. The survivors keep their relative order. |
| Density.MoveWithinPositions | backend/src/utils/position_helpers.py:77-100 | After a same-parent move, the item is at the target slot and every other sibling is at its old slot moved by the window rule. |
| Density.MoveWithinKeepsDensity | backend/src/utils/position_helpers.py:77-100 | A same-parent move to 0 <= b < N keeps the parent at 0..N-1 and puts the item at b. The other children keep their relative order. |
| Density.MoveAcrossKeepsDensity | backend/src/utils/position_helpers.py:101-107 | A cross-parent move to 0 <= b <= M leaves the old parent at 0..N-2 and the new one at 0..M with the item at b. Both keep their other children's order. |
| Density.CrossMoveIsDeleteThenInsert | backend/src/utils/position_helpers.py:101-107 | A cross-parent move equals a delete with compaction followed by an insert with the insert shift. |
| Density.MoveToOwnParentEndLeavesGap | backend/src/routes/cards.py:182-200 | Moving an item to its own parent without a position gives it slot N, because the append slot counts the item itself. This leaves the parent without density. |
| Density.ReorderedFrame | backend/src/utils/position_helpers.py:55-107 | A reorder never changes the moved item's row, any row outside the old and new parents, or the set of keys. |
| Density.CrossMoveStepsCommute | backend/src/utils/position_helpers.py:101-107 | The compaction of the old parent and the insert shift of the new one touch disjoint rows, so their order does not matter. |
| Density.InsertTwiceShiftsTwice | backend/src/utils/position_helpers.py:9-29 | The insert shift is not idempotent: two shifts move a row by two. |
| Density.ValidatedNonNegative | backend/src/utils/position_helpers.py:110-151 | On a table with no negative positions, the validated position is never negative, whether supplied or the append slot. |
| Density.InsertKeepsWellPlaced | backend/src/utils/position_helpers.py:9-29 | An insert shift at a slot p >= 0 followed by the new row at p keeps every position non-negative and every parent's positions distinct, dense or not. |
| Density.DeleteKeepsWellPlaced | backend/src/utils/position_helpers.py:32-52 | Removing a row and compacting behind its slot keeps positions non-negative and distinct per parent. |
| Density.MovedWithinAvoidsTarget | backend/src/utils/position_helpers.py:77-100 | In a same-parent move, no sibling other than the item lands on the target slot, and non-negative slots stay non-negative. |
| Density.MovedWithinInjective | backend/src/utils/position_helpers.py:77-100 | The window rule sends two siblings at different slots to different slots. |
| Density.RelocateKeepsWellPlaced | backend/src/utils/position_helpers.py:55-107 | A move to a slot b >= 0, within a parent or across parents, keeps positions non-negative and distinct per parent. |
| Density.RetaggedKeepsWellPlaced | backend/src/routes/cards.py:78-85 | Assigning a row's own columns leaves positions non-negative and distinct per parent. |
| Density.RelocateKeepsParentsIn | backend/src/utils/position_helpers.py:55-107 | A move adds and removes no row, and changes only the moved item's parent, so a move to an existing parent keeps every row's parent existing. |
| CardRoutes.UpdatedInfo | backend/src/routes/cards.py:78-85 | A key present in the body is assigned to its column, and a `null` description or due date clears it. A key missing from the body leaves its column as it was. |
| CardRoutes.CreateCard | backend/src/routes/cards.py:28-63 | 400 without a truthy title or a list id, and 404 for an unknown list. Otherwise, one insert shift at the validated position and a new unarchived card there. Every failure leaves the cards unchanged, and the store invariant holds. |
| CardRoutes.UpdateCard | backend/src/routes/cards.py:66-113 | 404 for an unknown card, or for a new list that is unknown or null, with nothing committed. Otherwise the present keys are assigned, and the card is relocated only when its list changes or a different position is given. |
| CardRoutes.DeleteCard | backend/src/routes/cards.py:116-132 | 404 for an unknown card. Otherwise the card is removed and its list is compacted behind its slot. |
| CardRoutes.ArchiveCard | backend/src/routes/cards.py:135-146 | 404 for an unknown card. Otherwise only its archived flag becomes true, and it keeps its list and slot. |
| CardRoutes.UnarchiveCard | backend/src/routes/cards.py:149-160 | 404 for an unknown card. Otherwise only its archived flag becomes false. |
| CardRoutes.MoveCard | backend/src/routes/cards.py:163-203 | 404 for an unknown card, 400 when neither list nor position is given, and 404 for an unknown list. The card is relocated exactly when (list, validated position) differs from where it is. |
| ListRoutes.CreateList | backend/src/routes/lists.py:29-56 | 400 without a truthy title or a board id, and 404 for an unknown board. Otherwise, one insert shift and a new list at the validated position. |
| ListRoutes.UpdateList | backend/src/routes/lists.py:59-108 | 404 for an unknown list, or for a new board that is unknown or null, with nothing committed. Otherwise the title is assigned, and the list is relocated only when its board changes or a different position is given. |
| ListRoutes.DeleteList | backend/src/routes/lists.py:111-127 | 404 for an unknown list. Otherwise the list and exactly its cards are removed, the other cards are unchanged, and the board is compacted behind the list's slot. |
| ListRoutes.AddCardToList | backend/src/routes/lists.py:144-178 | 404 for an unknown list, checked before the 400 for a missing title. Otherwise, one insert shift and a new card at the validated position. |
| ListRoutes.MoveList | backend/src/routes/lists.py:181-228 | 404, then 400, then 404 for the target board. The list is relocated exactly when (board, validated position) differs, and its cards stay with it. |
| BoardAccess.BoardIdOf | backend/src/decorators/board.py:13 | `board_id or id`: none exactly when both keys are missing or 0. Otherwise a non-zero `board_id` wins over `id`. |
| BoardAccess.RequireBoardAccess | backend/src/decorators/board.py:7-38 | 400 without a board id, and 404 for an unknown board. The handler is called, with the unchanged arguments, exactly when the user owns the board or a membership row links them to it. A request naming an existing board that the user neither owns nor belongs to gets 403. |
| BoardAccess.RequireBoardOwner | backend/src/decorators/board.py:41-66 | The same 400 and 404 guards, but the handler is called exactly when the user owns the board, and any other user naming an existing board gets 403. |
| BoardAccess.OwnerImpliesAccess | backend/src/decorators/board.py:7-66 | Any request the owner guard lets through is also let through by the access guard. The two refuse identically for a missing id or an unknown board. A member who is not the owner passes the access guard and gets 403 from the owner guard. |
| BoardAccess.CardAndListRoutesRefused | backend/src/decorators/board.py:13-16 | A route whose only keyword is `card_id` or `list_id` is always refused with 400. |
| BoardRoutes.Filter | backend/src/routes/boards.py:24 | The comprehension keeps exactly the elements satisfying the test, never grows, and keeps distinctness. |
| BoardRoutes.MemberBoards | backend/src/routes/boards.py:20-21 | The member boards are exactly the boards a membership row links to the user. |
| BoardRoutes.GetAllBoards | backend/src/routes/boards.py:10-26 | Given the board table in store order, the owned boards come first, in that order. A board is listed exactly when the user owns it or is a member. No owned board is listed twice. |
| BoardRoutes.CreateBoard | backend/src/routes/boards.py:29-44 | 400 without a truthy title. Otherwise a new board owned by the user, whose description is the supplied one, or the empty string when the key is missing. |
| BoardRoutes.UpdateBoard | backend/src/routes/boards.py:58-74 | 404 for an unknown board. Otherwise a truthy title or description replaces the stored one and everything else is kept. |
| BoardRoutes.GetMemberBoards | backend/src/routes/boards.py:77-90 | 403 unless users ask about themselves. Otherwise exactly the boards they are a member of. |
| BoardRoutes.AddAllFacts | backend/src/routes/boards.py:117-123 | The loop keeps every old row. Afterwards every requested user is a member, every new row is for this board, and no new row repeats an existing pair. |
| BoardRoutes.AddAllIdempotent | backend/src/routes/boards.py:117-123 | Running the same `add_members` twice adds nothing the second time. |
| BoardRoutes.AddAllOfMembers | backend/src/routes/boards.py:117-123 | Adding users who are all members already leaves the rows unchanged. |
| BoardRoutes.AddMembers | backend/src/routes/boards.py:105-125 | 400 for an empty list, then 404 for an unknown board. Otherwise the membership rows become those of the loop, and boards are untouched. |
| BoardRoutes.FirstIndex | backend/src/routes/boards.py:133 | `.first()`: none exactly when no row matches. Otherwise the earliest matching index. |
| BoardRoutes.RemoveMember | backend/src/routes/boards.py:128-138 | 404 when no row links the user to the board. Otherwise exactly one such row is removed and all other rows are kept. |
| Auth.ShapeIsWholeMatch | backend/src/routes/auth.py:15-17 | The direct matcher (split at the first `@`, then at the last `.` after it) accepts exactly the strings the anchored pattern matches. |
| Auth.IsValidEmail | backend/src/routes/auth.py:15-17 | Accepts exactly the strings the pattern matches with `re.match` and `$`, including one final newline. |
| Auth.AcceptedHasOneAt | backend/src/routes/auth.py:16 | Every accepted address contains exactly one `@`. |
| Auth.TrailingNewlineAccepted | backend/src/routes/auth.py:16-17 | Any matching address followed by a newline is also accepted. |
| Auth.ValidatePassword | backend/src/routes/auth.py:20-22 | Accepts exactly passwords of six or more characters. |
| Auth.Register | backend/src/routes/auth.py:25-67 | Checks run in this order: a missing or empty field, the e-mail format, the password length, then a username or e-mail already in use. A user is created exactly when all four pass, and it stores the password's hash. |
| Auth.RegisterKeepsUsersUnique | backend/src/routes/auth.py:42-46 | Registration keeps usernames and e-mails unique, and only stores validated e-mails and long-enough passwords. |
| Auth.FirstByUsername | backend/src/routes/auth.py:80 | The earliest user in the table with that username, or none exactly when no user has it. |
| Auth.Login | backend/src/routes/auth.py:70-97 | 400 for a missing username or password. A user is logged in exactly when the first user with that name exists and the password check succeeds; otherwise 401. The logged-in user is that first user, the one whose hash was checked. |

## Left out

- HTTP, JSON serialisation, JWT issuing and checking, and the response bodies are left out. Handlers take the request body as parameters and return the status code, and `get_jwt_identity()` is the `user` parameter.
- The card and list handlers are modelled as the body runs once the route is entered. As `BoardAccess.CardAndListRoutesRefused` states, the access decorator in front of them sees only `card_id` or `list_id` and so refuses every such request with 400.
- Database sessions, transactions, commit failures and rollbacks (the 500 path of `register`) and concurrent requests are left out. An update that returns 404 after assigning fields does not commit, so it is modelled as changing nothing.
- Assigning `null` to a non-nullable column (`title`, `archived`) in an update is not modelled, since the commit would fail. In the update bodies, `title` and `archived` are present or missing only.
- Password hashing and checking are the function parameters `hash` and `check`. The library code is not part of this model.
- Row order from the database is the `order` parameter of `BoardRoutes.GetAllBoards`, which lists every board of the table once. The listing returns board ids instead of serialised boards.
- `position` is a 32-bit `db.Integer` column (backend/src/models/card.py:12, backend/src/models/list.py:11). Since `validate_position` has no upper bound, a supplied position of 2^31 or more fails when the session flushes (a 500 response); the model stores any integer and does not model that failure.
- `PositionHelpers.Table.Add`: primary keys are one more than the largest key in use. This does not model the database sequence, which never reuses a deleted key.
- `.first()` without `order_by` (backend/src/routes/auth.py:80, backend/src/routes/boards.py:133) returns whichever matching row the database yields first, in no defined order. The model takes the earliest matching row in storage order (`Auth.FirstByUsername`, `BoardRoutes.FirstIndex`, `BoardRoutes.RemoveMember`).
- `Auth.ValidatePassword`: the length is the number of string elements. Python counts code points.
- Due dates are opaque strings. Date parsing and the `created_at`/`updated_at` timestamps are not modelled.
- The read-only routes `get_card`, `get_list`, `get_list_cards`, `get_board`, `get_board_members` and `get_board_lists`, the board deletion route, `refresh`, `me` and the frontend are not part of this model.
