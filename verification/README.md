# GenoTasks board logic in Dafny

GenoTasks is a shared task board for a creative-production team. Every client
subscribes to one node of a replicated peer-to-peer store (Gun) and keeps a
map from task id to task, rebuilt from the events that node delivers. A
client filters that map for display and offers a list of weeks to choose from.
It exports one week to a text file and imports tasks from such a file. It
writes changes back to the node: new tasks, status and priority changes, and
deletions. This project models those rules and proves properties of them:

- `types.dfy` (`Types`): the task record, the flat wire record in which the
  comments travel as one encoded blob, and the put.
- `text.dfy` (`Text`): the JavaScript string built-ins the board relies on
  (`toLowerCase`, `includes`, `split`, `slice(-2)`, the default `sort` order).
- `repository.dfy` (`Repository`): applying one event from the task node to
  the map, the records the board writes, and replaying echoed writes.
- `query.dfy` (`Query`): the five AND-ed filters and the week selector's list.
- `transfer.dfy` (`Transfer`): the export week and the export file name.
- `board.dfy` (`App`): the board component's state as a class. The `Board`
  class holds the map, the synced flag, the filter fields and the log of
  puts. Its methods are the event handler, the filter reset, the save,
  update, delete, export and import handlers.
- `task_table.dfy` (`TaskTable`): the priority and status changes of the task
  table, and the delivery-date formatting.

Helpers whose code is not part of this model are parameters of the members
that use them. No property is claimed about them. They are `getExportText`,
`parseImportText`, `checkPriorityLimit` and the JSON encoding of comments.
`sortTasks` is not modelled at all (see "Left out").

Two behaviours of the code that one might not expect:

- One might expect lowering a priority to skip the quota check. The table
  asks `checkPriorityLimit` on every priority change, lowering included
  (`TaskTable.PriorityChange`).
- One might expect "a completed task has the lowest priority" to hold at all
  times. The code enforces it only when the status changes: a Head can raise
  a completed task's priority (`TaskTable.RaisingCompletedTask`).

## Model

| member | source | states |
|---|---|---|
| `Repository.DecodeComments` | App.tsx:59 | a missing or empty blob is read as no comments; any other blob goes through the decoder, whose `None` stands for a throwing `JSON.parse` |
| `Repository.ApplyEvent` | App.tsx:47-66 | an event for one key never adds, removes or changes any other key |
| `Repository.DeleteEvent` | App.tsx:48-53 | a null event removes exactly its key; on an absent key it changes nothing |
| `Repository.StoreEvent` | App.tsx:54-61 | a decodable record is stored under the event key with every wire field and the decoded comments; a missing or empty blob gives no comments |
| `Repository.DropUndecodable` | App.tsx:56-64 | a record whose comments fail to decode leaves the map exactly as it was |
| `Repository.RedeliveryIsNoOp` | App.tsx:47-66 | delivering the same event twice, immediately one after the other, has the effect of delivering it once |
| `Repository.LaterEventWins` | App.tsx:47-66 | a later null or decodable record for a key overrides an earlier event for it |
| `Repository.DistinctKeysCommute` | App.tsx:47-66 | events for different keys give the same map in either order |
| `Repository.FromWire` | App.tsx:57-60 | the stored task carries every wire field and the given comments |
| `Repository.ToWire` | App.tsx:152-155 | the written record carries every task field and the encoded comments |
| `Repository.SavePuts` | App.tsx:151-157 | one put per task, in order, at the task's own id, holding its wire record |
| `Repository.SaveThenEcho` | App.tsx:111-116 | if the decoder reads back the encoded comments, the echo of a save stores exactly the saved task under its id and changes nothing else |
| `Repository.ReplayUntouched` | App.tsx:47-66 | replaying events in delivery order (`Repository.Replay`) leaves every key that no event names exactly as it was |
| `Repository.ReplayLastDelete` | App.tsx:48-53 | when the last replayed event is a null, its key is absent afterwards, whatever came before |
| `Repository.ReplayStoresEach` | App.tsx:149-157 | after the echoes of a batch of saves with distinct ids, every task of the batch is found under its id |
| `Repository.ReplaySaves` | App.tsx:149-157 | the echoes of an import batch with distinct ids store every task under its id and leave every other key as it was |
| `App.Board.constructor` | App.tsx:20-40 | the board starts with no tasks, not synced, no filter set and no puts |
| `App.Board.OnEvent` | App.tsx:47-67 | the new map is the event applied to the old one, and the synced flag is true afterwards, decode failures included |
| `App.Board.ResetFilters` | App.tsx:76-84 | area, team and status return to `Todos` and the search to empty; the week is cleared only when asked |
| `App.Board.SaveNewTask` | App.tsx:101-109 | one put of the task under its id, and the week filter becomes the working week |
| `App.Board.UpdateTask` | App.tsx:111-116 | one put of the task under its id |
| `App.Board.DeleteTask` | App.tsx:122-125 | one null put under the id |
| `App.ValuesInOrder` | App.tsx:74 | one task per listed key, the map's entry under that key, in the order of the keys |
| `App.ValuesInOrderListsMap` | App.tsx:74 | for a key order that lists every key once, the list has one task per key and holds exactly the map's tasks |
| `App.Board.Export` | App.tsx:127-135 | no download exactly when both weeks are empty; otherwise the selected week (else the working week) names the file, and the renderer receives that week and every task of the map, unfiltered |
| `App.Board.ImportFile` | App.tsx:146-163 | empty content or an empty parse writes nothing and leaves the filters; otherwise exactly one put per parsed task, in order, at its own id, then a full filter reset |
| `Query.SearchMatches` | App.tsx:92-93 | a task matches exactly when the lower-cased term occurs in its lower-cased title or in its lower-cased requester |
| `Query.Matches` | App.tsx:88-95 | with no week and `Todos` in the three selectors, the search alone decides; the five conditions together are stated by `Query.FilterTasks` |
| `Query.FilterTasks` | App.tsx:87-96 | a task is kept exactly when it is in the input and passes all five conditions |
| `Query.FilterAppend` | App.tsx:87-96 | filtering distributes over concatenation, so kept tasks keep their order |
| `Query.EmptySearchMatchesAll` | App.tsx:92-93 | the empty search term matches every task |
| `Query.SearchIgnoresTermCase` | App.tsx:92-93 | lower-casing the search term does not change which tasks match |
| `Query.NoFiltersKeepAll` | App.tsx:88-95 | with an empty week, `Todos` everywhere and an empty search, every task is shown in its order |
| `Query.CombineMatches` | App.tsx:95 | a task passes the combination of two filters on separate criteria exactly when it passes both |
| `Query.FilterCompose` | App.tsx:87-96 | filtering by two filters on separate criteria in turn equals filtering by their combination |
| `Query.WeekOptions` | App.tsx:271 | the week list holds exactly the weeks that occur, each once, in strictly descending order |
| `Query.WeekOptionsBySet` | App.tsx:271 | the week list depends only on the set of weeks, not on the order of the tasks |
| `Text.Includes` | App.tsx:92-93 | `includes` holds exactly when the term occurs at some position |
| `Text.Lower` | App.tsx:92-93 | lower-casing keeps the length and maps each character on its own |
| `Text.Less` | App.tsx:271 | no string sorts before itself; with the three lemmas below, the sort order is a strict total order |
| `Text.LessTotal` | App.tsx:271 | any two different weeks are ordered by the sort order |
| `Text.LessTransitive` | App.tsx:271 | the sort order is transitive |
| `Text.LessAsymmetric` | App.tsx:271 | the sort order is asymmetric |
| `Text.Split` | components/TaskTable.tsx:54 | a split has at least one piece and no piece holds the delimiter |
| `Text.JoinSplit` | components/TaskTable.tsx:54 | joining the pieces of a split gives back the string |
| `Text.SplitJoin` | components/TaskTable.tsx:54 | splitting joined pieces without the delimiter gives back the pieces |
| `Text.LastTwo` | components/TaskTable.tsx:55 | `slice(-2)` is a suffix of length two, or the whole string when shorter |
| `Transfer.ExportWeek` | App.tsx:128-132 | the selected week when set, else the working week; none exactly when both are empty |
| `Transfer.Normalize` | App.tsx:134 | same length; each separator becomes '_' and every other character is kept |
| `Transfer.NormalizeClean` | App.tsx:134 | no separator survives, and normalising is idempotent |
| `Transfer.IsSeparator` | App.tsx:134 | space, tab, line feed and '/' are replaced; letters, digits, '-' and '_' are kept |
| `Transfer.ExportFileName` | App.tsx:134 | the name is `Tareas_GenoTasks_`, then one character per character of the week, then `.txt` |
| `Transfer.FileNameShape` | App.tsx:134 | the name is `Tareas_GenoTasks_`, the normalised week, and `.txt`, and holds no separator |
| `TaskTable.PriorityChange` | components/TaskTable.tsx:18-27 | an update exists exactly for the Head role when the quota check, asked with the task's own week, team, area and id, allows it; it changes only the priority |
| `TaskTable.StatusChange` | components/TaskTable.tsx:29-34 | the status is set; completion forces `Baja`, any other status keeps the priority; nothing else changes |
| `TaskTable.StatusChangeEstablishesCompletionRule` | components/TaskTable.tsx:29-34 | after any status change a completed task has priority `Baja` |
| `TaskTable.StatusChangeIdempotent` | components/TaskTable.tsx:29-34 | choosing the same status twice equals choosing it once |
| `TaskTable.RaisingCompletedTask` | components/TaskTable.tsx:18-27 | an allowed priority change on a completed task leaves it completed at the raised priority |
| `TaskTable.Piece` | components/TaskTable.tsx:55 | the piece at a position the split has, else "undefined", as a template literal renders a missing element |
| `TaskTable.FormatDeliveryDate` | components/TaskTable.tsx:52-56 | the result is "Pendiente" exactly when the date is missing or empty |
| `TaskTable.FormatYearMonthDay` | components/TaskTable.tsx:52-56 | `Y-M-D` is rendered as `D/M/` followed by the last two characters of `Y` |
| `TaskTable.FormatWithoutSeparator` | components/TaskTable.tsx:52-56 | a date without '-' renders its missing month and day as "undefined" |

## Left out

- The Gun client, its relay peers, and subscribing to and unsubscribing from the node (App.tsx:3, 12-17, 45, 69-71) are foreign networking. The last-writer-wins merge and deletion markers live inside Gun, so the model claims no convergence and no tombstone dominance. A put only reaches the map through its echo event, and `Repository.ReplaySaves` states that echo.
- `sortTasks` is not part of this model. `Query.FilterTasks` is the list before that sort, and no sort order is claimed.
- `getExportText`, `parseImportText`, `downloadAsText`, `getWeekStringFromDate` and `checkPriorityLimit` are not part of this model. `getExportText`, `parseImportText` and `checkPriorityLimit` are parameters. The call to `downloadAsText` is the `Download` value that `App.Board.Export` returns, and the result of `getWeekStringFromDate` is the `workingWeek` argument of the `App.Board` constructor. Nothing is claimed about these helpers: no quota caps, no import ids, no export/import round trip.
- `JSON.parse` and `JSON.stringify` of the comments are the parameters `decode` and `encode`. `Repository.SaveThenEcho` and `Repository.ReplaySaves` assume that `decode` reads back what `encode` wrote, as an explicit hypothesis. A decoder result is a list or a failure, so a blob that parses to something other than a list (such as `null` or `0`, which App.tsx:59 would store as the comments) must be modelled as either a dropped event or some list.
- The parse error's `console.error`, every `alert`, the file reader, the clearing of the file input, the date picker and `new Date()` are browser input and output or clock dependencies (App.tsx:26-32, 63, 130, 137-145, 158, 161, 164-175). `App.Board.ImportFile` receives the file's text. Its outcome tells the three ends apart: empty content returns silently, while an empty parse and a completed import each show an alert (App.tsx:158, 161).
- The wizard and detail-modal flags, the tracking of the selected task (App.tsx:107, 117-119, 124), the role toggle, all JSX, the colour helpers and the requester styling are rendering only.
- `Text.Lower`: only ASCII letters are lowered, because Unicode `toLowerCase` is not modelled.
- `Text.Less`: characters are compared as code points. JavaScript compares UTF-16 code units, which orders characters beyond U+FFFF differently.
- `Transfer.Normalize`: strings are sequences of code points, so lengths count code points, not UTF-16 units. A character beyond U+FFFF is not a separator in either reading.
- `Object.values(tasksMap)` has an insertion order that a Dafny map does not keep. `App.Board.Export` therefore takes that order as a parameter, a sequence that lists every key of the map once, and renders `App.ValuesInOrder` of it. The query functions take the task list as a sequence, and `Query.WeekOptionsBySet` shows that the week list does not depend on its order.
- Incoming wire records are assumed to carry every task field. Gun's metadata and partial records are not modelled.
- Areas and teams are text, because their enumerations (constants) are not part of this model. The `types` module is not part of this model, so the fields of a comment (author, text, timestamp) are an assumption; no property depends on them.
