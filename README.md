# Egg-production record store, remote sync and history filter

This project models the data layer of a small poultry-farm application. It covers:

- the daily egg-production record store (`DataService` in `services/dataService.ts`);
- its push of records to a remote spreadsheet table (AppSheet);
- the locally stored user table;
- the history screen's filter and export range (`components/HistoryTable.tsx`).

Each storage document (records, users, remote configuration) is a field of the class
`Service.DataService`. A field holds the whole document, which is read and written whole.
The rows sent to the remote table are kept in order in the field `pushed`. The pure parts are
functions in their own modules, and the properties are lemmas about those functions:

- `Records`: deriving a record's rates, the newest-first order, marking records synced, deleting.
- `Remote`: the configuration default and how the remote's answer is judged.
- `Sync`: what a bulk sync run computes.
- `Users`: the seeded administrators, upsert and delete.
- `HistoryTable`: the search and date filter and the export range.
- `Seqs` and `Dates`: `filter` on sequences, and the date order.

The remote service cannot be seen from here, so its answers are parameters:

- `AddRecord` takes the one `Response` its push receives.
- `SyncAllRecords` takes `remote: nat -> Response`, where `remote(k)` answers the request made for the k-th record of the run's snapshot.

Dates are `YYYY-MM-DD` strings. The source compares them through `new Date(...)`, and for
strings of that shape this agrees with their lexicographic order (`Dates.LexLe`).

Behaviours of the code worth knowing, all modelled as written:

- **Records with no birds.** `addRecord` does not check `birdCount`. With zero birds it divides
  by zero, and the posture rate it computes is an infinity or `NaN` (`Records.NewRecord`,
  `Types.Number`). `JSON.stringify` then stores that rate as `null` (`Records.Persisted`).
  The push `addRecord` makes right away uses the record in memory and can succeed. A later
  `syncAllRecords` reads the record back with a `null` rate, and building its row
  (`toFixed(2)` on `null`) throws before any request is made. So such a record is counted as
  failed on every run and is never bulk-synced (`Sync.ZeroBirdRecordNeverBulkSynced`).
- **Which remote answers count as success.** Any OK reply whose body parses is accepted,
  unless it is an object with a truthy `RestApiResponse`/`Error` field or an empty array. So an
  OK object without error fields is accepted although it carries no rows
  (`Remote.AcceptsWithoutAddedRows`). The body is decoded before the status is checked, so an
  undecodable body fails even with an OK status.
- **Bulk sync ignores the enabled flag.** `syncAllRecords` checks only the two credentials and
  never `isEnabled`. `addRecord` checks all three.
- **Duplicate ids.** `markAsSynced` marks the first record with the given id. If two stored
  records shared an id, an accepted push of one could flag the other. The per-record
  "synced iff accepted" properties are therefore stated for lists with unique ids
  (`Records.MarkFirstSyncedUnique`, `Sync.SyncMarksExactlySucceeded`).
- **The shared push step.** `DataService.PushAndMark` is the `try` block that `addRecord` and
  `syncAllRecords` both run. It tries to build and send one row and, on acceptance, calls
  `markAsSynced`.

## Model

| member | source | states |
|---|---|---|
| Records.NewRecord | services/dataService.ts:86-97 | the record `addRecord` builds and pushes (storage keeps it through `Persisted`) copies every input field, has total feed = morning + afternoon feed, posture rate × birds = eggs × 100 (an infinity or NaN when there are no birds), loss rate × eggs = broken × 100 when eggs > 0 and 0 otherwise, and is unsynced |
| Records.RatesArePercentages | services/dataService.ts:88-89 | with 0 ≤ broken ≤ eggs ≤ birds and birds > 0, both rates are finite and lie in [0, 100] |
| Records.ExampleDay | services/dataService.ts:87-89 | 100 birds, 90 eggs, 5 broken, 2.0 + 1.5 kg feed give 3.5 kg, 90 % and 50/9 % |
| Records.SortByDateDescSorted | services/dataService.ts:101 | `SortByDateDesc`, the stable sort by date, leaves every record dated no later than the ones before it (newest first) |
| Records.SortByDateDescPermutes | services/dataService.ts:100-101 | `SortByDateDesc` keeps exactly the same records with the same multiplicities |
| Records.SortByDateDescStable | services/dataService.ts:101 | under `SortByDateDesc`, records of the same date keep their relative order (a stable sort) |
| Records.SubsequenceSorted | services/dataService.ts:212 | dropping records from a newest-first list leaves it newest first |
| Records.FirstIndexOf | services/dataService.ts:117 | the result is the first position holding the id, or none when no record has it |
| Records.MarkFirstSynced | services/dataService.ts:115-122 | only sync flags are raised; the first record with the id becomes synced and every other position is unchanged |
| Records.MarkFirstSyncedIdempotent | services/dataService.ts:115-122 | marking the same id twice is the same as marking it once |
| Records.MarkFirstSyncedUnique | services/dataService.ts:117-119 | with unique ids, a record ends synced iff it was synced already or carries the id |
| Records.OnlySyncFlagsRaisedKeepsOrder | services/dataService.ts:119 | raising sync flags keeps a newest-first list newest first |
| Records.OnlySyncFlagsRaisedKeepsIds | services/dataService.ts:119 | raising sync flags keeps the same ids at the same positions |
| Records.MarkAllSynced | services/dataService.ts:133-142 | marking a series of ids only raises sync flags |
| Records.MarkAllSyncedUnique | services/dataService.ts:133-142 | with unique ids, a record ends synced iff it was synced or its id is among those marked |
| Records.WithoutRecord | services/dataService.ts:211-214 | no kept record has the id, every record with another id is kept, and the order is kept |
| Records.WithoutRecordCounts | services/dataService.ts:212 | each record with another id keeps all its copies; when no record has the id the list is unchanged |
| Records.Persisted | services/dataService.ts:102 | a stored record reads back with a finite or `null` posture rate: a finite one unchanged, a non-finite one as `null`, every other field as it was |
| Records.PersistedIdempotent | services/dataService.ts:102 | storing a record read back from storage changes nothing more |
| Records.PersistedNewRecord | services/dataService.ts:88-102 | a new record reads back with a `null` posture rate iff it was entered with zero birds, and otherwise reads back exactly as built |
| Records.Unsynced | services/dataService.ts:129 | the snapshot holds every copy of each unsynced record and nothing else, in list order |
| Remote.DefaultConfigNeverPushes | services/dataService.ts:29-32 | the default configuration is enabled but has no credentials, so `AutoPushEnabled` (the check of line 105) is false for it |
| Remote.Classify | services/dataService.ts:183-204 | a push fails on a transport error, an undecodable body, a non-OK status, an object with a truthy error field or an empty array, checked in that order, and succeeds in every other case |
| Remote.ReturnsAddedRowsAccepted | services/dataService.ts:186-204 | an OK reply carrying the added rows (`ReturnsAddedRows`: a non-empty array) is accepted |
| Remote.AcceptsWithoutAddedRows | services/dataService.ts:191-204 | an OK object without error fields is accepted although it carries no rows |
| Sync.AcceptedIds | services/dataService.ts:133-142 | at most one id per snapshot record, taken when its push succeeds (`PushSucceeds`: the row can be built and the answer is accepted) |
| Sync.AcceptedIdsMembers | services/dataService.ts:133-142 | an id is among the successes iff the push of some snapshot record carrying it succeeded |
| Sync.CountsAddUp | services/dataService.ts:130-143 | successes plus failures equal the number of snapshot records processed |
| Sync.AfterSync | services/dataService.ts:128-142 | the records after a run differ from those before only in raised sync flags |
| Sync.SyncOnlyRaisesFlags | services/dataService.ts:128-142 | a run keeps the length and newest-first order of the list and leaves synced records exactly as they were |
| Sync.SyncMarksExactlySucceeded | services/dataService.ts:133-167 | with unique ids, an unsynced record ends synced iff its own push succeeded; a record whose row cannot be built (a `null` posture rate) is left exactly as it was |
| Sync.ZeroBirdRecordNeverBulkSynced | services/dataService.ts:124-167 | a stored record entered with zero birds stays unsynced and unchanged after any run |
| Users.SeedUsersAreProtected | services/dataService.ts:11-25 | the two seeded administrators are exactly the ids `IsProtected` accepts, the ids line 61 refuses |
| Users.FindUserIndex | services/dataService.ts:51 | the result is the first position holding the id, or none |
| Users.UpsertUser | services/dataService.ts:49-58 | the user is present afterwards; an existing id is replaced in place (size unchanged), otherwise the user is appended; no other user changes |
| Users.UpsertThenFind | services/dataService.ts:49-58 | after an upsert, looking the id up finds the saved user |
| Users.UpsertIdempotent | services/dataService.ts:49-58 | saving the same user twice equals saving it once |
| Users.WithoutUser | services/dataService.ts:62 | no kept user has the id, every copy of every other user is kept, and the order is kept |
| Service.DataService.GetAppSheetConfig | services/dataService.ts:29-32 | the saved configuration, or the default with empty credentials, table "Records" and pushing enabled |
| Service.DataService.SetAppSheetConfig | services/dataService.ts:34-36 | the configuration is replaced whole and read back as saved |
| Service.DataService.GetUsers | services/dataService.ts:39-47 | a first read without a user table stores and returns the two administrators; a stored table is returned as it is |
| Service.DataService.SaveUser | services/dataService.ts:49-58 | the stored table becomes the upsert of the user into the table a read returns |
| Service.DataService.DeleteUser | services/dataService.ts:60-65 | succeeds iff `IsProtected` rejects the id; a refusal changes nothing; a success stores the table without that id |
| Service.DataService.AddRecord | services/dataService.ts:86-113 | stores the new record as storage writes it, sorted into the list; pushes the record as built once iff `AutoPushEnabled` holds; marks it synced iff that push is accepted; the list stays newest first |
| Service.DataService.PushAndMark | services/dataService.ts:106-111 | sends the row iff it can be built, reports success iff it was sent and the answer is accepted, and marks the id synced only then |
| Service.DataService.MarkAsSynced | services/dataService.ts:115-122 | the first record with the id becomes synced and nothing else changes; a newest-first list stays newest first |
| Service.DataService.SyncAllRecords | services/dataService.ts:124-144 | without credentials it fails and changes nothing; otherwise it sends the buildable rows of the unsynced snapshot in order; success + failed equals the snapshot size, with success equal to the successful pushes; the records become those with exactly the successful ids marked, and a newest-first list stays newest first |
| Service.DataService.DeleteRecord | services/dataService.ts:211-214 | stores the list without the id and keeps a newest-first list newest first |
| HistoryTable.Lower | components/HistoryTable.tsx:19-20 | lower-casing keeps the length and lower-cases each letter A-Z |
| HistoryTable.LowerIdempotent | components/HistoryTable.tsx:19-20 | lower-casing twice equals lower-casing once |
| HistoryTable.ContainsIffOccurs | components/HistoryTable.tsx:19-20 | `Contains`, the model of `includes`, holds iff the term occurs at some position |
| HistoryTable.SearchIgnoresCase | components/HistoryTable.tsx:19-20 | a record matches a term iff it matches the lower-cased term |
| HistoryTable.FilteredRecords | components/HistoryTable.tsx:17-25 | keeps exactly the records satisfying `MatchesFilter` (the search matches, and the date lies within the non-empty bounds), in list order |
| HistoryTable.FilteredRecordsCount | components/HistoryTable.tsx:17-25 | every copy of a matching record is kept and no copy of another |
| HistoryTable.NoCriteriaShowsAll | components/HistoryTable.tsx:17-25 | with an empty search and no dates the whole list is shown unchanged |
| HistoryTable.FilteredRecordsSorted | components/HistoryTable.tsx:17-25 | filtering a newest-first list keeps it newest first |
| HistoryTable.ExportRange | components/HistoryTable.tsx:41-47 | a chosen bound is printed as chosen; a missing start is the last record's date and a missing end the first record's; on an empty list a missing bound prints as "-" |
| HistoryTable.ExportRangeCoversReport | components/HistoryTable.tsx:41-47 | for a non-empty newest-first list, every exported record is dated within the printed range |
| HistoryTable.ExportRangeTight | components/HistoryTable.tsx:41-47 | without chosen bounds, the printed range runs from the oldest record's date to the newest's, both taken from the list |

## Left out

- The HTTP request itself is not modelled: the URL, `encodeURIComponent`, headers, the JSON body and `toFixed(2)` rounding of the pushed numbers. A push is the row it sends plus an abstract `Response`.
- The error messages thrown and logged are not modelled. A failure is only a `PushFailure` kind.
- `localStorage` and JSON (de)serialisation are not modelled, except that `JSON.stringify` writes a non-finite posture rate as `null` (`Records.Persisted`). Documents are class fields, and a missing records document reads as the empty list, as `getRecords` makes it.
- Timing across `await` points is not modelled: operations are sequential and atomic.
- Calendar parsing by `new Date(...)` is not modelled. Dates are compared as `YYYY-MM-DD` strings, and malformed date strings (an `Invalid Date`) are outside the model.
- JavaScript's `Number` is modelled as mathematical integers and reals. Floating-point rounding of the rates is not captured. Infinity, NaN and the stored `null` appear only in the posture rate, the one field that can divide by zero.
- `synced?` is optional in the source. An absent flag is modelled as `false`, which is how the source's falsy tests read it.
- HistoryTable.Lower: lower-cases only `A`-`Z`. JavaScript's `toLowerCase` also maps other Unicode letters, and that mapping is not modelled.
- `getCurrentUser`/`setCurrentUser` (the session document) are not modelled: the login screen uses them, and no property here depends on them.
- `quickFilter` in components/HistoryTable.tsx is not modelled: it reads the clock to set the date bounds, which enter the model as parameters.
- The React rendering is not modelled.
- `PDFService.generateReport` is not part of this model. Only the records and range it receives are.
- The dashboard statistics, the AI-generated insights, the service worker and the login and layout components are not part of this model.
- Record ids come from `Math.random` in the entry form. Here they are inputs, and uniqueness is a hypothesis where it matters.
