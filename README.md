# Shiptivitas kanban board: client-status bookkeeping

The board shows client cards in three columns: Backlog, In Progress and Complete.
This project models the only logic in `src/Board.js`: how the `Board` component
builds its cards and moves them between columns.

- **Seed table** (`Clients.dfy`). `getClients` maps a fixed table of 20 rows to
  records `{id, name, description, status}`. A falsy status becomes `"backlog"`.
  The table is stored column by column (`SeedId`, `SeedName`, `SeedDescription`,
  `SeedStatus`), so row `i` is `SeedRow(i)`.
- **Filter** (`Filtering.dfy`). This is JavaScript's `Array.prototype.filter`
  with a pure callback. It keeps exactly the matching elements, in their
  original order.
- **Columns** (`Partition.dfy`). The constructor splits the seed into `backlog`,
  `inProgress` and `complete`, and a missing status counts as backlog
  (`PartitionOnLoad`). `updateClientStatus` re-reads the seed, rewrites one
  record's status (`SetStatus`) and splits the result by plain equality
  (`PartitionByStatus`). The state after an update is `StateAfterUpdate(id, status)`.
- **Component** (`Board.dfy`). The `Board` class holds `clients` (the three
  columns) and has a constructor and the methods `UpdateClientStatus` and
  `OnDrop`. Its invariant `Valid` says the state is the state of some update.
  `DropRequest` is the guard of the "drop" handler. `SwimlaneStatus` is the
  mapping from column name to status in `renderSwimlane`, and `Rendered` lists
  the three columns `render` draws with the bucket each one shows.

Strings are `seq<char>`. The empty string is the only falsy string, and a
missing DOM value (element, target, `dataset`, attribute) is `None`. React's
`setState` is treated as a synchronous assignment of the `clients` field.

Two behaviours of the code are worth stating up front:

- Missing and unknown statuses. `getClients` turns a falsy status into
  `"backlog"`, and the constructor's backlog filter also takes a falsy status.
  `updateClientStatus` defaults nothing: it writes whatever status it is
  passed, and only the "drop" guard keeps out an empty one. After an update, a
  record whose status is none of the three shows in no column
  (`UpdateToInvalidStatus`).
- Earlier drops. Each update rebuilds the state from the seed, so the drops
  before it are lost (see Findings).

## Model

| member | source | states |
|---|---|---|
| `Clients.FromRow` | src/Board.js:162-167 | the record has a non-empty status: the row's status, or `"backlog"` when that is empty; id, name and description are copied from the row |
| `Clients.GetClients` | src/Board.js:70-168 | one record per table row, 20 in all, the record at position `i` made from row `i` |
| `Clients.SeedIdsAreNumerals` | src/Board.js:72-161 | row `i` of the table has the id `i + 1` in decimal, so the ids are "1" to "20" in table order |
| `Clients.SeedShape` | src/Board.js:71-167 | `getClients` returns 20 records with ids "1".."20" in order, no two with the same id, each with one of the three statuses |
| `Filtering.Filter` | src/Board.js:13-21 | the result holds exactly the elements of the input that satisfy the callback, and is no longer than the input |
| `Filtering.FilterKeepsOrder` | src/Board.js:13-21 | the filter's result is the input at all positions that satisfy the callback, in increasing order, so source order is kept |
| `Partition.PartitionOnLoad` | src/Board.js:11-23 | a record is in a constructor column exactly when it is in the list and that column's callback accepts it |
| `Partition.PartitionByStatus` | src/Board.js:178-186 | a record is in a column after an update exactly when it is in the list and has that column's status |
| `Partition.PartitionOnLoadSound` | src/Board.js:11-23 | each constructor column is exactly the records its callback accepts, in list order; a record with a missing status is in the backlog; no record is in two columns; when every status is missing or one of the three, every record is in exactly one column |
| `Partition.PartitionByStatusSound` | src/Board.js:178-186 | each column after an update is exactly the records with its status, in list order; no record is in two columns; when every status is one of the three, every record is in exactly one column |
| `Partition.ColumnMembership` | src/Board.js:178-186 | the contract of `PartitionByStatus` indexed by status name: for each of the three statuses, a record is in `Column(status)` exactly when it is in the list with that status |
| `Partition.OnLoadMatchesByStatus` | src/Board.js:13-21 | when no status is missing, the constructor's split equals the update's plain-equality split |
| `Partition.InitialStateByStatus` | src/Board.js:10-23 | the initial state is the seed split by plain status equality |
| `Partition.InitialStateSound` | src/Board.js:10-23 | after construction every seed record is in exactly one column, and each column holds exactly the seed records with its status, in seed order |
| `Partition.SetStatus` | src/Board.js:170-176 | the update keeps every record's id, name and description; the record with the matching id gets the new status; every other record is unchanged |
| `Partition.SetStatusChangesOne` | src/Board.js:170-176 | with distinct ids, an update changes at most one record |
| `Partition.SetStatusUnchanged` | src/Board.js:170-176 | an update that gives the matching records the status they already have returns the list unchanged |
| `Partition.UpdateUnchangedIsInitial` | src/Board.js:169-188 | an update for an unknown id, or to a card's own seed status, yields the initial state |
| `Partition.UpdateUnknownIdIsInitial` | src/Board.js:169-188 | an update for an id that no seed record has yields the initial state |
| `Partition.InitialStateIsUpdate` | src/Board.js:169-188 | the initial state equals the state of an update for the empty id |
| `Partition.SetValidStatusSound` | src/Board.js:170-186 | rewriting a status to one of the three keeps every record in exactly one column, and the rewritten record is in the column of its new status |
| `Partition.SetStatusOnBoard` | src/Board.js:170-186 | after an update, every record on the board has one of the three statuses and is a record of the list with at most its status changed; a record with that id has the new status, any other is unchanged |
| `Partition.FilterDistinct` | src/Board.js:179-185 | filtering a list whose ids are distinct gives a list whose ids are distinct |
| `Partition.ByStatusDistinct` | src/Board.js:178-186 | splitting a list whose ids are distinct gives three columns whose ids are distinct |
| `Partition.UpdateShowsSeedRecords` | src/Board.js:169-188 | whatever the id and status, the state after `updateClientStatus` shows no record in two columns, no two records with the same id in one column, and only seed records, with no status changed except that of the given id |
| `Partition.UpdateToValidStatus` | src/Board.js:169-188 | after `updateClientStatus(id, s)` with `s` one of the three: every record is in exactly one column; the moved record, with only its status changed, is in column `s`; any record with that id is in no other column |
| `Partition.SetInvalidStatusDrops` | src/Board.js:170-186 | rewriting a status to a string that is none of the three gives the same columns as removing that id's records, so no record with that id is shown |
| `Partition.UpdateToInvalidStatus` | src/Board.js:169-188 | after `updateClientStatus(id, s)` with `s` none of the three, no record with that id is in any column, and the other seed records are split as before |
| `BoardComponent.DropRequest` | src/Board.js:51-59 | the handler passes `(clientId, newStatus)` on exactly when the element, the target and its dataset are present and the id and the status are non-empty; these are the values read from the element and the target |
| `BoardComponent.SwimlaneStatus` | src/Board.js:189-197 | a status is defined exactly for the three column names, and it is one of the three statuses |
| `BoardComponent.SwimlaneStatusBijective` | src/Board.js:189-197 | no two column names share a status, and every status belongs to a column |
| `BoardComponent.ColumnsShowTheirStatus` | src/Board.js:189-235 | the columns `render` draws are "Backlog", "In Progress" and "Complete", in that order, and the status `renderSwimlane` gives each is the status of the records in the bucket it shows (backlog, inProgress, complete) |
| `BoardComponent.DropOnColumn` | src/Board.js:51-59 | a drop of a card with a non-empty id on a column passes the guard and asks for that column's status, one of the three; afterwards the seed card with that id, with only its status changed, is in the bucket shown under that column, and so is every card with that id |
| `BoardComponent.InitialStateIsSomeUpdate` | src/Board.js:10-23 | the constructor's state is the state of some update |
| `BoardComponent.ValidBoardShape` | src/Board.js:8-23 | a board satisfying the invariant shows no record in two columns, no two records with the same id in one column, and only seed records with at most the status of one id rewritten |
| `BoardComponent.Board.constructor` | src/Board.js:8-23 | the new board's state is the initial state, and the invariant holds |
| `BoardComponent.Board.UpdateClientStatus` | src/Board.js:169-188 | the new state is `StateAfterUpdate(clientId, newStatus)`, whatever it was before, so two successive calls leave the state of the second alone |
| `BoardComponent.Board.OnDrop` | src/Board.js:51-61 | the state changes only when the guard lets the payload through, and then becomes the state of that update; otherwise it is untouched |
| `BoardComponent.MoveNolanToInProgress` | src/Board.js:169-188 | moving card "3" to "in-progress" puts it, name and description unchanged, in the in-progress column and leaves no card "3" in the backlog |
| `BoardComponent.DropCompleteOnComplete` | src/Board.js:169-188 | dropping card "17" on "complete", its seed status, gives back the initial state |
| `BoardComponent.SecondDropUndoesFirst` | src/Board.js:169-188 | after card "3" was moved to "in-progress", moving card "5" puts card "3" back in the backlog and removes it from in-progress |
| `BoardComponent.UpdateCurrentKeepsOtherCards` | src/Board.js:169-188 | the corrected update, applied to the cards on the board, leaves every other card in its column and puts the moved card in the column of its new status |
| `BoardComponent.SecondDropKeepsFirst` | src/Board.js:169-188 | with the corrected update, card "3" stays in progress when card "5" is moved next |

## Left out

- The JSX markup of `render` and `renderSwimlane`, and the `Swimlane` component. Of the markup, only which bucket each named column shows (`Rendered`) and the name-to-status mapping are modelled. `Swimlane.js` is not part of this model. `ColumnTarget` assumes it writes its `swimlaneStatus` into the container's `data-swimlane` attribute.
- The drag-and-drop library: `Dragula` itself, the `moves` and `accepts` callbacks that always return true, `copy: false`, `revertOnSpill`, and container registration in `componentDidMount`. This is foreign code. Only the payload the "drop" callback receives is modelled.
- The "over" and "out" handlers. They only add or remove a CSS class on a DOM element.
- React refs (`this.swimlanes`), `bind`, and React's scheduling of `setState`, which is taken as a synchronous assignment.
- CSS imports.
- JavaScript values other than strings. A status or attribute that is `undefined` or `null` is modelled as the empty string or `None`. `el.dataset` is assumed present on the dragged element, as it is on any DOM element.

## Findings

| source | as written | input that shows it | evidently intended | confidence | as-written member | corrected member |
|---|---|---|---|---|---|---|
| src/Board.js:170 | `updateClientStatus` rewrites the status in a fresh `getClients()` copy of the seed, not in the current state, so each drop discards every earlier drop | drop card "3" on In Progress, then card "5" on Complete: card "3" is back in Backlog | the line's own comment says it re-fetches "to get latest data": apply the drop to the records currently on the board | medium; not executed | `BoardComponent.SecondDropUndoesFirst` | `BoardComponent.UpdateCurrentKeepsOtherCards` |

The `Board` class keeps the behaviour as written, because it models the source.
`UpdateCurrent` is the corrected update. `SecondDropKeepsFirst` shows that it
keeps the earlier drop in the same scenario.
