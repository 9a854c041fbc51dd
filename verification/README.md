# Client manager record store — a Dafny model

The client-manager app is a single-page CRM. It keeps three lists in the
browser's local storage:

- the **column schema**, an ordered list of user-defined columns;
- the **client records**, each holding a few administrative fields (`id`,
  `status`, `lastContact`, `logs`) plus one free-form text value per column
  id;
- the **asset vault**, a list of named links.

The model treats every event handler that changes these lists as a pure
transition on immutable sequences. It covers adding a client, writing one
field, deleting a client, adding a log entry, adding an asset, inserting and
deleting a column, the search filter, and the counts and conversion rate of
the kanban and metrics views. The clock, today's date, the confirmation
dialog and the text prompts are parameters of each operation.

Modules, one file each:

- `wrappers.dfy`, module `Wrappers`: `Option` (a cancelled prompt, a missing
  storage key) and `Result` (a refused change).
- `seqs.dfy`, module `Seqs`: order-preserving `Filter`, insertion and removal
  at an index, subsequences, key uniqueness.
- `text.dfy`, module `Text`: JavaScript's whitespace class, ASCII
  lower-casing, `trim`, `includes`, and the `/\s+/g → _` rewrite.
- `schema.dfy`, module `Schema`: `DEFAULT_COLUMNS`, `addColumn`,
  `deleteColumn`, and derived column ids.
- `clients.dfy`, module `Clients`: records, the tolerant cell read,
  `addClient`, `updateClient`, `deleteClient`, `addLog`.
- `assets.dfy`, module `Assets`: `addAsset` and the vault's add button.
- `search.dfy`, module `Search`: the `filteredClients` predicate.
- `metrics.dfy`, module `Metrics`: kanban columns, per-status counts,
  conversion rate.
- `store.dfy`, module `RecordStore`: the whole store. It has the start-up
  defaults, one `Command` per user action, the store invariant, and its
  preservation over any run of actions.

A client is `Client(id, status, lastContact, logs, fields)`. `fields` is a
`map<string, string>` that never repeats an administrative key.
`Clients.Cell(c, f)` is the read `client[f] || ''`:

- a key the record lacks reads as `""`;
- the log list reads the way JavaScript prints an array of objects
  (`[object Object]` per entry, comma-separated).

The search sees the same values. So a search for "object" lists every client
that has a log entry (`Search.LoggedClientMatchesObject`). That is how the
code behaves as written.

The store invariant (`RecordStore.Valid`) says:

- the schema is non-empty;
- column ids are unique, and none is `id` or `logs`;
- client ids are unique;
- no record shadows an administrative key;
- log ids are unique within each record;
- asset ids are unique.

The code reads ids from a millisecond clock and never checks them. So
freshness of each new id is a precondition (`RecordStore.Admissible`), not a
theorem.

Some behaviour of the code is easy to misread; the model follows the code:

- A log entry stores the draft exactly as typed. Only the blank test trims it
  (src/App.jsx:84, 88).
- `addAsset` always prepends. The refusal of an empty name or url sits in the
  vault's add button (src/App.jsx:306-309). Both are modelled:
  `Assets.AddAsset` and `Assets.AddAssetFromPrompts`.
- The insert position follows `Array.prototype.splice`. A negative start
  counts from the end, and both ends are clamped (`Schema.SpliceStart`).
- The refusal to delete the last column keeps the schema non-empty only while
  column ids are unique. Two columns sharing an id are removed together, so
  one deletion can empty a two-column schema
  (`Schema.DuplicateIdsCanEmptySchema`).

## Model

| member | source | states |
|---|---|---|
| Schema.DefaultColumnsValid | src/App.jsx:21-29 | the default schema has 7 columns with pairwise distinct ids, none of them `id` or `logs`; only the select column has options, and those are the five statuses |
| Schema.SpliceStart | src/App.jsx:116 | the splice start is clamped into 0..length: a position inside the range is used as is, a larger one becomes the length, and a negative one counts from the end |
| Schema.AddColumn | src/App.jsx:107-118 | a cancelled or empty title leaves the schema unchanged; otherwise the result is one longer, the new text column sits at the splice start, and removing it gives back the old schema |
| Schema.AddColumnKeepsOrder | src/App.jsx:115-116 | the old columns survive the insertion as an order-preserving subsequence |
| Schema.ColumnIdIsNotAdministrative | src/App.jsx:111 | a derived id contains `_`, so it is never `id`, `logs`, `status` or `lastContact` |
| Schema.ColumnIdsDifferByToken | src/App.jsx:111 | ids derived with different digit tokens differ, whatever the titles |
| Schema.AddColumnKeepsValid | src/App.jsx:107-118 | adding a column whose derived id is fresh keeps the schema non-empty, with unique ids, none of them `id` or `logs` |
| Schema.DeleteColumn | src/App.jsx:120-128 | a schema of at most one column is refused with the notice; a declined confirmation changes nothing; otherwise exactly the columns with a different id remain; an absent id changes nothing (how many copies survive is stated by `Schema.DeleteColumnKeepsOrder`) |
| Schema.DeleteColumnKeepsOrder | src/App.jsx:120-128 | the surviving columns keep their relative order; every copy of a column with another id survives, and a confirmed deletion leaves no copy of a column carrying the id |
| Schema.DeleteColumnKeepsValid | src/App.jsx:120-128 | with unique ids no deletion empties the schema, and a valid schema stays valid |
| Schema.DuplicateIdsCanEmptySchema | src/App.jsx:121-126 | two columns sharing an id are both removed by one confirmed deletion, which leaves the schema empty |
| Schema.DeleteUndoesAdd | src/App.jsx:107-128 | deleting a column that was just added under a fresh id restores the schema exactly |
| Text.TrimStart | src/App.jsx:84 | the result is a suffix of the input, what was dropped is all whitespace, and the result does not start with whitespace |
| Text.TrimEnd | src/App.jsx:84 | the result is a prefix of the input, what was dropped is all whitespace, and the result does not end with whitespace |
| Text.BlankIffAllSpace | src/App.jsx:84 | `trim` leaves nothing exactly when every character is whitespace |
| Text.IncludesIff | src/App.jsx:132 | the left-to-right scan finds the term exactly when the term occurs at some position |
| Text.CollapseSpaces | src/App.jsx:111 | the whitespace rewrite leaves no whitespace and never lengthens the text |
| Text.CollapseRun | src/App.jsx:111 | a maximal whitespace run, whether followed by the end or by a non-space character, becomes exactly one `_` |
| Text.CollapseCopies | src/App.jsx:111 | a non-space character, `_` included, is copied through unchanged; with `Text.CollapseRun` and the empty case this fixes the rewrite on every input |
| Text.CollapseKeepsPlain | src/App.jsx:111 | read without underscores, the rewrite and its input agree: every character that is neither whitespace nor `_` is kept, in order (underscores are covered by `Text.CollapseCopies`) |
| Text.SlugOfPlainLabel | src/App.jsx:111 | a title without whitespace becomes its lower-cased self, and re-deriving a stem changes nothing |
| Clients.LogsText | src/App.jsx:131-132 | a log list prints as the empty string exactly when it is empty; otherwise the print starts with `[object Object]` |
| Clients.MissingKeyReadsEmpty | src/App.jsx:240 | a key the record does not have reads as empty text |
| Clients.CellsDetermineClient | src/App.jsx:80 | two well-formed records with the same keys, logs and cell values are the same record |
| Clients.AddClient | src/App.jsx:64-77 | the list grows by one with the old list as its tail; the new record has the given id, status Lead, today's date, an empty log list, and every non-administrative cell empty |
| Clients.SetField | src/App.jsx:80 | after writing `f := v`, cell `f` reads `v`, every other cell reads as before, the log list is kept, and well-formedness is preserved |
| Clients.UpdateClient | src/App.jsx:79-81 | length and order are kept; each record with the id has the field written and every other cell kept; other records are unchanged; with no match the list is unchanged |
| Clients.DeleteClient | src/App.jsx:101-105 | when confirmed, exactly the records with a different id remain; when declined, or when the id is absent, nothing changes |
| Clients.DeleteClientKeepsOrder | src/App.jsx:103 | the survivors form an order-preserving subsequence, and each keeps its multiplicity |
| Clients.AddLog | src/App.jsx:83-94 | blank text changes nothing; otherwise each matching record gets the untrimmed entry ahead of its old entries (a missing list counts as empty) and today's date, with id, status and fields kept; other records are unchanged |
| Clients.AddLogRefusesOnlyWhitespace | src/App.jsx:84 | when the client exists, adding a log changes nothing exactly when the text is all whitespace |
| Clients.AddClientKeepsValid | src/App.jsx:64-77 | a record added under a fresh id keeps ids unique and records well-formed |
| Clients.UpdateClientKeepsValid | src/App.jsx:79-81 | writing a field other than `id` and `logs` keeps the records valid |
| Clients.DeleteClientKeepsValid | src/App.jsx:101-105 | deleting keeps the records valid |
| Clients.AddLogKeepsValid | src/App.jsx:83-94 | a log entry whose id is fresh for its record keeps log ids unique |
| Assets.AddAsset | src/App.jsx:96-99 | the list grows by one, the new asset is first with the given id, name and url, and the old list is the tail |
| Assets.AddAssetFromPrompts | src/App.jsx:306-309 | an asset is added exactly when both answers are present and non-empty; otherwise the vault is unchanged |
| Assets.AddAssetKeepsDistinct | src/App.jsx:96-99 | an asset added under a fresh id keeps asset ids unique |
| Search.Search | src/App.jsx:130-134 | every listed client is a stored client that matches, and every stored client that matches is listed |
| Search.MatchesIffOccurs | src/App.jsx:131-133 | a record matches exactly when the lower-cased term occurs in some lower-cased value of it |
| Search.SearchKeepsOrder | src/App.jsx:130 | the result is an order-preserving subsequence that keeps every copy of a matching record and none of any other |
| Search.SearchEmptyTermKeepsAll | src/App.jsx:130-134 | an empty term lists every client, in stored order |
| Search.SearchIgnoresCase | src/App.jsx:132 | terms that lower-case alike list the same clients |
| Search.LoggedClientMatchesObject | src/App.jsx:131-132 | a record with at least one log entry matches the term "object" |
| Search.SearchWonExample | src/App.jsx:130-134 | searching "won" over an Acme record in status Won and a Globex record in status Lead lists exactly Acme |
| Metrics.Board | src/App.jsx:282-286 | a kanban column lists exactly the clients in its status |
| Metrics.BoardKeepsOrder | src/App.jsx:282-286 | a kanban column keeps stored order, holds every copy of a client in its status, and no copy of any other client |
| Metrics.CountStatus | src/App.jsx:284 | a per-status count never exceeds the number of clients |
| Metrics.CountStatusIsTally | src/App.jsx:284 | a per-status count equals the number of clients in that status, counted one by one |
| Metrics.ConversionRate | src/App.jsx:346 | the rate lies in 0..100 and is 0 when there are no clients |
| Metrics.RoundedPercentIsNearest | src/App.jsx:346 | the rate is the nearest integer to 100·won/total, with halves rounded up |
| Metrics.ConversionRateExtremes | src/App.jsx:346 | no Won client gives 0 percent; all clients Won gives 100 percent |
| Metrics.SumCountsCountsOnce | src/App.jsx:354-355 | the counts of distinct statuses add up to the number of clients in one of them |
| Metrics.PipelineWithinTotal | src/App.jsx:354-355 | the four pipeline counts plus the Lost count are at most the total |
| RecordStore.Initial | src/App.jsx:33-50 | a collection with nothing saved starts as the default schema or as empty; a saved one is used as saved |
| RecordStore.Apply | src/App.jsx:64-128 | each action changes only its own collection; a refused column deletion changes nothing |
| RecordStore.InitialIsValid | src/App.jsx:21-29 | with nothing saved, the store starts valid |
| RecordStore.ApplyKeepsValid | src/App.jsx:64-128 | every admissible action keeps a valid store valid; an edited cell is never `id` or `logs` |
| RecordStore.RunKeepsValid | src/App.jsx:64-128 | from a valid store, after any run of admissible actions, the store is still valid: ids stay unique in every collection and the schema is non-empty |
| RecordStore.RemoveColumnKeepsCells | src/App.jsx:125-126 | deleting a column leaves every cell of every record readable as before |
| RecordStore.NewClientScenario | src/App.jsx:64-94 | create a client, set company and Demo Built, add a log: there is one client, one in Demo Built, none Won, the rate is 0, and the note is the only log entry |

## Left out

- Rendering, view switching, modals and the React state and effect machinery (src/App.jsx:32-62, 136-405): presentation, not logic.
- Saving to local storage and the JSON encode/decode (src/App.jsx:33-62): foreign calls. Only "nothing saved → default" is modelled (`RecordStore.Initial`), so the save/reload round trip is not stated.
- `window.confirm`, `prompt` and `alert`: their answers are parameters. The alert is the `Failure` of `Schema.DeleteColumn`.
- `Date.now`, `toISOString` and `toLocaleString`: clock and locale calls, taken as parameters. Id freshness is assumed per action (`RecordStore.Admissible`), because the code does not guarantee it.
- Text.Lower: lower-cases ASCII letters only, where JavaScript's `toLowerCase` covers all of Unicode.
- Clients.UpdateClient: requires the field not be `logs`. The code would replace the log list with a string. The only callers pass a column id (src/App.jsx:231, 242), and `RecordStore.ApplyKeepsValid` shows that no column id is `logs`.
- Clients.SetField: same restriction as `Clients.UpdateClient`, for the same reason.
- Field values that are `null` or not strings, and records lacking `id`, `status` or `lastContact`: the store never creates them, so the model cannot represent them. The search's skipping of `null` values is therefore not modelled.
- Column types are an enumeration. A saved schema with some other type string is not representable.
- Metrics.ConversionRate: rounds the exact ratio `(200·won + total) / (2·total)`. The code rounds a floating-point product. The two can differ by one where that product lands within rounding error of a half.
- The pipeline bar width (src/App.jsx:356, 361) is floating-point presentation. The status-to-CSS-class rewriting (src/App.jsx:229, 361) is styling.
- Clearing the log draft after an entry is added (src/App.jsx:93): this is input-box state, not store state.
