# Kanban board: ordering, grouping and drag-and-drop

A model of the board logic in `src/Home/Home.jsx`. It covers:

- the two view preferences, grouping and ordering, and their defaults on load;
- `sortTickets`, which orders the whole ticket list by priority or by title;
- `groupTickets` with its three partitioners: `groupByStatus`, `groupByUser` and `groupByPriority`;
- the board that `Object.keys(groupedTickets)` lays out as columns;
- the drag-and-drop cycle: `KanbanCard.handleDragStart` records the dragged ticket, and `KanbanColumn.handleDrop` calls `Home.handleDrop` with the column title as the ticket's new status.

React state becomes an immutable `Kanban.State`. Each handler becomes a pure function from one state to the next.

Modules, in dependency order:

| module | file | contents |
|---|---|---|
| `Seqs` | seqs.dfy | `Array.prototype.filter` and `map` on sequences; the subsequence relation; first and last index |
| `Sorting` | sorting.dfy | a stable insertion sort over a comparator, with sortedness, stability, uniqueness and idempotence |
| `Tickets` | tickets.dfy | `Ticket`, `User`, `Option` |
| `Ordering` | ordering.dfy | `sortTickets` and its two comparators |
| `Grouping` | grouping.dfy | a board as a sequence of columns, the three partitioners, `groupTickets` |
| `Preferences` | preferences.dfy | `localStorage.getItem(key) \|\| default` |
| `Kanban` | kanban.dfy | view state, rendering, drag start and the two drop handlers, plus the corrected drop |
| `Scenarios` | scenarios.dfy | concrete boards |

## How the model reads the code

- **Comparators.** A JavaScript comparator `c(a, b)` becomes a relation `le(a, b)` meaning `c(a, b) <= 0`, i.e. "`a` may stay before `b`".
  - The priority comparator `b.priority - a.priority` becomes `Ordering.PriorityFirst`.
  - `String.prototype.localeCompare` calls into the host's collation tables. It is the parameter `collate`. The lemmas about title order assume only that `collate` is a total preorder.
- **Sorting.** `Array.prototype.sort` has been required to be stable since ECMAScript 2019. `Sorting.SortBy` is a stable insertion sort.
  - `Sorting.SortByIsTheStableSort` proves that any sorted, stable permutation of the input equals `SortBy`'s result. So for a consistent comparator, `SortBy` is the engine's sort, whatever algorithm the engine uses.
- **Boards.** A board is a sequence of `Column(key, cards)` in the order `Object.keys` yields the keys.
  - The status and priority boards are object literals. Their key order is the literal's.
  - `groupByUser` assigns `groupedByUser[user.name]` once per user. An assignment to a key already present keeps that key's place and replaces its value. A new key is appended. `Grouping.Put` models that assignment, and `Grouping.GroupByUser` is the fold of `Put` over the user list.
- **Render write-back.** `tickets.sort(...)` sorts the `useState` array in place. So each render leaves the tickets in the order it drew them, and the next event or render starts from there. `Kanban.AfterRender` is that write-back.
- **Other representations.**
  - Identifiers are strings, and `===` on them is equality.
  - Priorities are unbounded integers.
  - `draggedTicket` is an `Option<Ticket>`. The `if (draggedTicket)` test is `Some?`, because a ticket object is always truthy.

## Model

| member | source | states |
|---|---|---|
| Preferences.StoredOr | src/Home/Home.jsx:9-14 | The stored string is used when it is non-empty. A missing key (`null`) or an empty string falls back to the default. Nothing else can come out. |
| Preferences.DefaultGroupingIsStatus | src/Home/Home.jsx:9-11 | A missing, empty or unrecognised stored grouping groups the board by status. |
| Preferences.DefaultOrderingIsPriority | src/Home/Home.jsx:12-14 | A missing, empty or unrecognised stored ordering sorts by priority. |
| Preferences.SelectionSurvivesReload | src/Home/Home.jsx:28-34 | A dropdown value, once written under its key, is the value the next load starts with. |
| Preferences.InitialGrouping | src/Home/Home.jsx:9-11 | The grouping starts as the stored value when that is non-empty. It starts as "Status" when nothing or "" is stored. |
| Preferences.InitialOrdering | src/Home/Home.jsx:12-14 | The ordering starts as the stored value when that is non-empty. It starts as "Priority" when nothing or "" is stored. |
| Kanban.Initial | src/Home/Home.jsx:6-16 | The first state has no tickets, no users and no dragged ticket. Its modes are the stored-or-default values: "Status" and "Priority" when nothing is stored. |
| Kanban.SelectGrouping | src/Home/Home.jsx:116 | The grouping dropdown sets the grouping and nothing else. |
| Kanban.SelectOrdering | src/Home/Home.jsx:129 | The ordering dropdown sets the ordering and nothing else. |
| Ordering.SortTickets | src/Home/Home.jsx:48-56 | The result is a permutation of the input. Under any ordering but "Title", priorities are non-increasing and each priority's tickets keep their input order. |
| Ordering.Comparator | src/Home/Home.jsx:49-55 | "Title" compares titles with the collation. Every other value lets `a` precede `b` exactly when `a`'s priority is at least `b`'s. |
| Ordering.UnknownOrderingIsPriority | src/Home/Home.jsx:49-55 | Every ordering value other than "Title" takes the `default` branch and sorts by priority. |
| Ordering.PriorityOrderIsUnique | src/Home/Home.jsx:54 | A permutation that is in non-increasing priority and keeps each priority's tickets in input order is exactly the priority sort's result. |
| Ordering.TitleSorted | src/Home/Home.jsx:51 | With a consistent collation, adjacent titles come out in collation order, and tickets whose titles collate equal keep their input order. |
| Ordering.SortTicketsIdempotent | src/Home/Home.jsx:48-56 | Sorting an already sorted list again changes nothing. For titles this needs a consistent collation. |
| Sorting.SortByIsTheStableSort | src/Home/Home.jsx:51-54 | Under a total preorder, any sorted permutation that keeps equivalent elements in input order equals `SortBy`'s result. |
| Sorting.SortByStable | src/Home/Home.jsx:51-54 | The sort keeps equivalent elements in their input order. |
| Sorting.SortBySorted | src/Home/Home.jsx:51-54 | Under a total preorder, every adjacent pair of the result is in order. |
| Grouping.GroupTickets | src/Home/Home.jsx:36-46 | Every column lists some of the given tickets in their given order. Every grouping but "User" yields five columns. |
| Grouping.UnknownGroupingIsStatus | src/Home/Home.jsx:37-45 | A grouping value other than "User" or "Priority" groups by status. |
| Grouping.GroupByStatus | src/Home/Home.jsx:58-66 | The keys are Backlog, Todo, InProgress, Done and Canceled, in that order, and every column follows the input order. |
| Grouping.StatusColumnMembers | src/Home/Home.jsx:58-66 | A ticket is in a status column iff its status is that column's literal. The InProgress column's literal is "In progress". |
| Grouping.StatusColumnsPlacement | src/Home/Home.jsx:58-66 | No ticket is in two columns. A ticket whose status is one of the five literals is in exactly one column. Any other ticket is in none. |
| Grouping.StatusBoardShowsLiteralsOnly | src/Home/Home.jsx:58-66 | Every card on the status board is an input ticket whose status is one of the five literals. |
| Grouping.StatusBoardIsPartition | src/Home/Home.jsx:58-66 | When every status is one of the five literals, the columns together hold exactly the input tickets, with multiplicity. |
| Grouping.GroupByPriority | src/Home/Home.jsx:79-87 | The keys are NoPriority, Urgent, High, Medium and Low, in that order, and every column follows the input order. |
| Grouping.PriorityColumnMembers | src/Home/Home.jsx:79-87 | A ticket is in a column iff its priority is 0, 4, 3, 2 or 1 respectively. |
| Grouping.PriorityColumnsPlacement | src/Home/Home.jsx:79-87 | No ticket is in two columns. A ticket with priority 0 to 4 is in exactly one column. Any other ticket is in none. |
| Grouping.PriorityBoardIsPartition | src/Home/Home.jsx:79-87 | When every priority is 0 to 4, the columns together hold exactly the input tickets, with multiplicity. |
| Grouping.Put | src/Home/Home.jsx:72 | Property assignment: the key reads back the new value, and every other key reads as before. An existing key keeps its place; a new key goes last. |
| Grouping.GroupByUser | src/Home/Home.jsx:68-77 | The keys are the users' names with no repeats and no other key. Every column follows the input order. |
| Grouping.UserKeysInFirstOccurrenceOrder | src/Home/Home.jsx:71-75 | The columns appear in the order in which each name first occurs in the user list. |
| Grouping.UserColumn | src/Home/Home.jsx:71-75 | A name's column holds the tickets owned by the LAST user with that name. Earlier users with the same name are overwritten. |
| Grouping.UserColumnsHoldOwnedTickets | src/Home/Home.jsx:72-74 | Every card in a user column is an input ticket owned by a user whose name is that column's key. |
| Grouping.UnknownUserMissing | src/Home/Home.jsx:72-74 | A ticket whose `userId` matches no user is in no column. |
| Kanban.Render | src/Home/Home.jsx:98 | The list is sorted before it is grouped, so each column lists its cards in sorted order. |
| Kanban.AfterRender | src/Home/Home.jsx:51-54 | A render leaves the state's tickets permuted into the order it drew them. Every other field is unchanged. |
| Kanban.RenderAgainSameBoard | src/Home/Home.jsx:98 | Under an unchanged, consistent ordering, the write-back is invisible: rendering again draws the same board and leaves the same state. |
| Kanban.RestatusChangesOnlyStatus | src/Home/Home.jsx:92 | The map callback changes only `status`, and only for the ticket that carries the dropped id. |
| Kanban.SetStatus | src/Home/Home.jsx:90-94 | Same length. Every ticket with the id gets the new status and keeps every other field. Every other ticket is unchanged. |
| Kanban.SetStatusLastWriteWins | src/Home/Home.jsx:90-94 | Two status writes to one id leave what the second wrote. |
| Kanban.SetStatusUnchanged | src/Home/Home.jsx:91-93 | Writing a ticket's current status back leaves the list unchanged. |
| Kanban.SetStatusKeepsIds | src/Home/Home.jsx:91-93 | A drop never changes any ticket's id or the order of the ids. |
| Kanban.HandleDrop | src/Home/Home.jsx:89-96 | The ticket list gets the status write, the dragged ticket is cleared, and the modes and users are untouched. |
| Kanban.DragStart | src/Home/Home.jsx:201-203 | Only the dragged ticket changes, and it becomes the card's ticket. |
| Kanban.ColumnDrop | src/Home/Home.jsx:170-175 | With nothing dragged the drop does nothing. Otherwise the column title becomes the dragged ticket's status. |
| Kanban.DragThenDrop | src/Home/Home.jsx:170-175 | Dragging a card and dropping it on a column writes that column's title into the card's ticket and ends the drag. |
| Kanban.SecondDropIgnored | src/Home/Home.jsx:172 | A second drop right after a first one does nothing, because the first cleared the dragged ticket. |
| Kanban.DropOntoMatchingColumn | src/Home/Home.jsx:173 | On the status board, a ticket dropped on Backlog, Todo, Done or Canceled is drawn in the column with that key, and in no other. |
| Kanban.DropOntoInProgressHidesTicket | src/Home/Home.jsx:62 | On the status board, a ticket dropped on InProgress is drawn in no column at all. |
| Kanban.UnmatchedStatusHidden | src/Home/Home.jsx:89-96 | After a status write that no status column matches, no ticket with that id is on the status board. |
| Kanban.StatusForColumn | src/Home/Home.jsx:60-64 | Each status column key maps to the literal that column matches. Any other title is unchanged. |
| Kanban.ColumnDropCorrected | src/Home/Home.jsx:170-175 | The drop writes the literal the target column matches, not the column's key. |
| Kanban.CorrectedDropLandsInColumn | src/Home/Home.jsx:58-66 | With the corrected drop, a ticket dropped on any of the five status columns is drawn in that column and no other. |
| Kanban.DropUnderOtherGroupingMovesNoCard | src/Home/Home.jsx:89-96 | On the user or priority board, a drop leaves every card in its column and place. Only the dropped ticket's status changes, to a user name or priority label. |
| Kanban.SortTicketsMap | src/Home/Home.jsx:48-56 | Rewriting a field that neither comparator reads commutes with sorting. |
| Kanban.GroupByUserMap | src/Home/Home.jsx:68-77 | Rewriting a field other than `userId` commutes with user grouping. |
| Kanban.PartitionMap | src/Home/Home.jsx:79-87 | Rewriting a field the partition key does not read commutes with partitioning. |
| Scenarios.PriorityOrderedTodoColumn | src/Home/Home.jsx:98 | Two Todo tickets with priorities 4 and 2 are shown 4 first, whatever their input order. |
| Scenarios.DragTodoToDone | src/Home/Home.jsx:170-175 | Dragging ticket 1 from Todo onto Done gives ticket 1 the status "Done" and changes nothing else. |
| Scenarios.AliceColumn | src/Home/Home.jsx:68-77 | With the single user Alice, her column holds her ticket, and the ticket of an unknown user is nowhere. |
| Scenarios.TiesKeepPreviousOrder | src/Home/Home.jsx:51-54 | Two equal-priority tickets rendered by title and then switched to priority are drawn in the title order. The original list rendered by priority draws them the other way round. |
| Scenarios.TodoPair | src/Home/Home.jsx:61 | Two Todo tickets fill the Todo column in the order given. |
| Scenarios.InProgressDropLosesCard | src/Home/Home.jsx:62 | A Todo card dropped on InProgress stays in the ticket list but leaves the board. |

## Left out

- Fetching tickets and users (src/Home/Home.jsx:18-26) is network I/O. The fetched lists are the `tickets` and `users` fields of the state. A failed fetch leaves both empty, which is `Kanban.Initial`.
- Writing the preferences back to `localStorage` (src/Home/Home.jsx:28-34) is I/O. Only its effect on the next load is stated, in `Preferences.SelectionSurvivesReload`.
- The dropdown's visibility flag, `handleDragOver`, and all markup (src/Home/Home.jsx:100-218) produce no board data.
- `localeCompare` is not modelled. It is the abstract `collate` parameter, because its result depends on the host's locale data.
- Ordering.SortTickets: the sort returns a new sequence rather than sorting in place. The in-place effect on the state is modelled separately by `Kanban.AfterRender`. The drop lemmas take whatever ticket order the state holds. They do not say that this order came from an earlier render.
- Ordering.SortTickets: the result is stated only for a consistent comparator. With an inconsistent `collate`, the engine's order is implementation-defined. `SortBy` is then one possible result.
- Priorities are integers. A non-numeric priority would make the comparator return `NaN`, which this model does not represent.
- Grouping.Put: an assignment to the key `"__proto__"` on a plain object calls the inherited `__proto__` setter and creates no own key. `Object.keys` then shows no such column, but `Put` appends one. Names are modelled as ordinary keys.
- Grouping.GroupByUser: a user name that is an array index ("0", "17", …) would be listed first, in numeric order, by `Object.keys`. The model keeps insertion order for every name.
- Kanban.ColumnDrop: the drag is cleared only by a drop, as in the code. A drag released outside every column leaves the ticket recorded, because the card has no `onDragEnd` handler. A later drop of some other dragged content on a column would then restatus that ticket.
- React's batching of the two state updates in `handleDrop` is not modelled. The model applies them as one step, which is how they become visible.

## Findings

| source | as written | input that shows it | evidently intended | confidence | as-written member | corrected member |
|---|---|---|---|---|---|---|
| src/Home/Home.jsx:62 | The status board's `InProgress` column holds tickets whose status is "In progress". A drop on it writes the column title "InProgress". | A "Todo" ticket dragged onto the InProgress column, with grouping Status. | A drop on a status column gives the ticket the status that column shows, so the card appears there. | not executed | Kanban.DropOntoInProgressHidesTicket | Kanban.CorrectedDropLandsInColumn |

- `Kanban.DropOntoInProgressHidesTicket` and the concrete `Scenarios.InProgressDropLosesCard` model the drop as written. The dropped ticket keeps its place in the ticket list, but its status is "InProgress". No status column matches it, so the card leaves the Status board until the page reloads. Under User or Priority grouping the card is drawn again.
- `Kanban.ColumnDropCorrected` maps the column key to the status that column matches (`Kanban.StatusForColumn`) before writing it. `Kanban.CorrectedDropLandsInColumn` proves that with this drop, a ticket dropped on any status column is drawn in that column and only there.
- On the user and priority boards, the status written is a user name or a priority label. `Kanban.DropUnderOtherGroupingMovesNoCard` shows that there the drop moves no card at all. The drop looks like a no-op, but it corrupts the ticket's status.
