# Wheel transfer tasks between the ledger, the staging lists and the document store

This project models the three Celery tasks that keep a plant's relational
ledger of wheel scans (SQL Server) and its document store of wheels and
wheelstacks (reached over an HTTP API) in step. It also models the two
Redis staging lists they communicate through.

- **Forward sync** (`sql_transfer_wheels`):
  - reads the unconsumed ledger rows (`mark = 0`) and groups them by
    `(shuttle_number, stack_number)` into 10-slot wheelstacks;
  - creates a wheel per filled slot, and the first failure aborts that
    wheelstack;
  - creates a wheelstack for every group whose wheels were all created.
    Only status 201 counts as success;
  - pushes the rows of each created wheelstack onto the correct-wheels
    list, and the ids of every orphaned wheel onto the failed-wheels list.
- **Acknowledgment** (`sql_mark_read`):
  - marks the ledger rows staged on the correct-wheels list as consumed
    (`mark = 1`) in one committed batch;
  - only after that commit, removes the staged entries (LREM).
- **Cleanup** (`redis_clear_failed_wheels`):
  - deletes the document of every id on the failed-wheels list;
  - removes an id only after its DELETE succeeded.
- **Reverse sync** (`transfer_wheels_mongo`):
  - gives every wheel the document store lists as untransferred an audit
    row in the ledger's write table, unless one with its natural key
    `(order_no, year, product_ID, marked_part_no)` exists;
  - then marks the wheel transferred with a PATCH.

Modules:

- `Ledger` (ledger.dfy): the two tables and the queries of
  `wheels_actions.py`.
  - The `Database` class holds the read table and the write table. Its
    methods update them in place.
- `Staging` (staging.dfy): a Redis list, as a class `RedisList` with
  RPUSH, LRANGE and LREM.
- `Grouping` (grouping.dfy): the nested `wheelstacks_data` dict.
  - Modelled as association lists in insertion order, as Python dicts keep.
- `ForwardSync` (forward.dfy): the forward sync.
  - Each loop becomes a method proved equal to a fold-style specification
    function.
  - The whole run is `Forward`, and `SqlTransferWheels` is proved to
    compute it.
- `QueueTasks` (queue.dfy): the acknowledgment and cleanup tasks.
- `ReverseSync` (reverse.dfy): the reverse sync.

The document API is a set of oracles:

- The wheel and wheelstack creation answers are functions of the request.
  Every such request of one run carries a distinct row or distinct wheel
  ids, so a function of the request is as general as an answer per call.
- The cleanup DELETE replies and the reverse sync's per-wheel replies are
  functions of the position in the list being walked. A repeated id then
  gets its own reply at each of its positions.

The stores' failures are boolean or index parameters:

- whether LRANGE succeeds;
- whether the SQL batch commits;
- which LREM raises first.

Celery's `self.retry` and `.delay()` become outcome values and flags.

Exceptions that are not caught end a task part-way:

- In the forward sync, an exception from `requests` aborts the task
  (celery/sql_mongo_transfer.py:295-300, 338-343). This is listed under
  "Left out".
- In the reverse sync, a SQL error in the check or the insert aborts the
  whole task before any later wheel is looked at
  (celery/mongo_sql_transfer.py:88-100). So does an exception from the
  PATCH, which has neither a `try` nor a timeout
  (celery/mongo_sql_transfer.py:102).
  - Both are modelled. A raised PATCH is the error `PatchRaised`, and
    the audit row already committed for that wheel stays
    (`ReverseSync.PatchRaiseKeepsRecord`).
  - No later wheel is processed after either error
    (`ReverseSync.StepsAbsorb`).

## Model

| member | source | states |
|---|---|---|
| Ledger.Pending | celery/wheels_actions.py:32-46 | the rows read are rows of the read table with `mark = 0`, every such row is among them, and there are no more than the table holds |
| Ledger.PendingAppend | celery/wheels_actions.py:44-46 | the SELECT keeps table order: reading two consecutive parts of the table gives the rows of the first part, then those of the second |
| Ledger.PendingSingle | celery/wheels_actions.py:44 | one row is returned exactly when its `mark` is 0 |
| Ledger.PendingCounts | celery/wheels_actions.py:44-46 | each unconsumed row is returned as many times as it occurs in the table, and a consumed row never |
| Ledger.ReadPendingAppend | celery/wheels_actions.py:46-58 | `get_wheels_data` keeps table order: reading two consecutive parts of the table gives the re-stamped rows of the first part, then those of the second |
| Ledger.ReadPendingSingle | celery/wheels_actions.py:49-57 | one row yields itself with `timestamp_submit` replaced by the time of the read exactly when it is unconsumed |
| Ledger.ReadPendingExactly | celery/wheels_actions.py:44-57 | a row is returned iff it is an unconsumed row of the read table with `timestamp_submit` replaced by the time of the read |
| Ledger.Database.GetWheelsData | celery/wheels_actions.py:24-58 | the loop returns the pending rows in table order, each stamped with the time of the read and with `mark = 0` |
| Ledger.BuildAuditRow | celery/wheels_actions.py:109-159 | the row is built iff the status is laboratory, shipped or rejected; any other status (`pto` included) is the KeyError for it. A built row carries the wheel's natural key and codes that translate back to its status. Its position is -1 when the wheel has no wheelstack, else the wheelstack position. It carries the given timestamp, and the unused columns and `mark` are 0 |
| Ledger.StatusTablesAgree | celery/wheels_actions.py:114-125 | a status has both codes iff it is laboratory, shipped or rejected; `pto` has only a batch code; each code table is inverted by its name table |
| Ledger.OrderNosWithKey | celery/wheels_actions.py:76-96 | the query's result is empty iff no audit row has the four-field key, and every value returned is the wheel's `order_no` |
| Ledger.Database.CheckTransferRecord | celery/wheels_actions.py:66-98 | a store failure raises; otherwise the result is empty iff no audit row has the wheel's natural key |
| Ledger.Database.CreateTransferRecord | celery/wheels_actions.py:104-164 | an unknown status or a store failure raises and leaves the write table as it was; otherwise exactly the built row is appended and the row count is 1 |
| Ledger.UpdateMarkCommutes | celery/sql_mongo_transfer.py:80-92 | two UPDATEs of the batch give the same table in either order |
| Ledger.UpdateMarkIdempotent | celery/sql_mongo_transfer.py:80-82 | repeating one UPDATE with the same key changes nothing |
| Ledger.ExecuteManyOrderFree | celery/sql_mongo_transfer.py:87-92 | the batch's result depends only on which keys were sent, not on their order or repetition |
| Ledger.ExecuteMany | celery/sql_mongo_transfer.py:79-93 | after the batch, each row is marked consumed iff it was pending and its `(order_no, product_ID, marked_part_no)` was sent; the table keeps its length |
| Ledger.MarkOnlyFlipsZeroToOne | celery/sql_mongo_transfer.py:80-82 | each row is either unchanged or a pending row whose `mark` went from 0 to 1 with every other column kept |
| Ledger.MarkReadIdempotent | celery/sql_mongo_transfer.py:80-93 | running the same acknowledgment batch twice leaves the table as running it once |
| Ledger.MarkReadSubsumed | celery/sql_mongo_transfer.py:80-93 | a later batch whose keys were all in an earlier committed batch changes nothing |
| Ledger.MarkReadIgnoresYear | celery/sql_mongo_transfer.py:82 | a pending row of another year with the same order, product and part number is marked consumed too |
| Ledger.Database.MarkRead | celery/sql_mongo_transfer.py:74-93 | the batch is committed iff the store is up; only then does the read table change, to the batch's result |
| Staging.RemoveAll | celery/sql_mongo_transfer.py:95 | LREM with count 0 leaves exactly the elements that differ from the value, and never lengthens the list |
| Staging.RemoveAllIdempotent | celery/sql_mongo_transfer.py:162 | a second LREM of the same value changes nothing |
| Staging.RemoveEach | celery/sql_mongo_transfer.py:94-95 | after one LREM per value, an element remains iff it was in the list and is none of the values |
| Staging.DrainSnapshot | celery/sql_mongo_transfer.py:94-95 | removing every entry of a snapshot from the list it was taken of empties the list |
| Staging.RedisList.RPush | celery/sql_mongo_transfer.py:351-354 | the value is appended at the tail and nothing else changes |
| Staging.RedisList.LRange | celery/sql_mongo_transfer.py:65 | the snapshot is the whole list, and the list is left as it was |
| Staging.RedisList.LRem | celery/sql_mongo_transfer.py:95 | the list loses every occurrence of the value, and the count returned is how many went |
| Grouping.GroupedSlots | celery/sql_mongo_transfer.py:251-263 | a `(row, col)` group exists iff some pending row has those coordinates; its slot `k` holds the last such row with `number_in_stack = k`, or nothing |
| Grouping.GroupedRowOrder | celery/sql_mongo_transfer.py:252-255 | the row keys are the distinct `shuttle_number`s in order of first appearance |
| Grouping.GroupedColOrder | celery/sql_mongo_transfer.py:256-261 | under each row key, the column keys are the distinct `stack_number`s of that shuttle's rows in order of first appearance |
| Grouping.LookupPlace | celery/sql_mongo_transfer.py:253-263 | one pass of the grouping loop changes only slot `number_in_stack` of the row's own group, creating that group with empty slots if new |
| Grouping.GroupsMembers | celery/sql_mongo_transfer.py:269-272 | the two nested loops visit exactly the `(row, col)` entries of the dict, with their slots |
| Grouping.GroupsOfGrouped | celery/sql_mongo_transfer.py:251-272 | the groups visited are exactly the occupied `(row, col)` pairs, each slot holding the last pending row at its coordinates and position |
| Grouping.GroupRowIsWheel | celery/sql_mongo_transfer.py:251-263 | every row held by a group is a pending row with that group's coordinates |
| Grouping.GroupWheels | celery/sql_mongo_transfer.py:251-263 | the grouping loop builds the dict that `Grouped` defines |
| Grouping.PlaceWheel | celery/sql_mongo_transfer.py:253-263 | one pass of the loop places the row as `Place` defines |
| ForwardSync.NonNull | celery/sql_mongo_transfer.py:273-275 | the rows kept are exactly those of the filled slots |
| ForwardSync.WheelRequestFor | celery/sql_mongo_transfer.py:276-290 | the wheel request names the row's `marked_part_no` and `order_no`, has diameter 10000 and status `basePlatform`, and carries the row itself |
| ForwardSync.CreateStep | celery/sql_mongo_transfer.py:273-308 | one slot only extends the requests and ids, by at most one each; an empty slot or an aborted loop changes nothing; a slot that aborts the loop adds no id and its request was the one answered with failure |
| ForwardSync.CreateWheelsAnswers | celery/sql_mongo_transfer.py:273-308 | each created id answers the request at its position; an aborted loop sent exactly one request more than it created ids, and that last request failed |
| ForwardSync.CreateWheelsRequests | celery/sql_mongo_transfer.py:273-300 | the requests sent are a prefix of the filled slots' requests in slot order, and all of them when nothing failed |
| ForwardSync.AbortIsFinal | celery/sql_mongo_transfer.py:301-306 | once a slot's request fails, the later slots send nothing |
| ForwardSync.CreatedOnePerFilledSlot | celery/sql_mongo_transfer.py:273-308 | the loop runs to the end iff every filled slot's request is answered; then one wheel is created per filled slot, in slot order |
| ForwardSync.AbortedIds | celery/sql_mongo_transfer.py:301-302 | an id is collected iff it was created for a group whose slot loop broke off |
| ForwardSync.Survivors | celery/sql_mongo_transfer.py:303-310 | a group is left for the wheelstack loop iff its slot loop did not break off, and no more groups are left than were tried |
| ForwardSync.BatchNumberOfFirstFilled | celery/sql_mongo_transfer.py:317-322 | the batch number is the `order_no` of the earliest filled slot, and empty when no slot is filled |
| ForwardSync.StackRequestDescribesGroup | celery/sql_mongo_transfer.py:323-333 | the wheelstack request places the group at its own row and column on the platform, lists exactly the wheels created for it, takes the batch number of its first filled slot, and is an unblocked `basePlatform` stack of 6 |
| ForwardSync.StackStep | celery/sql_mongo_transfer.py:338-356 | one wheelstack iteration sends the group's request and only extends the lists; a 201 adds one wheelstack id and fails nothing, any other code adds no wheelstack and pushes no row |
| ForwardSync.StackLoop | celery/sql_mongo_transfer.py:313-343 | one wheelstack request per surviving group, in visiting order, each built from that group |
| ForwardSync.StackLoopFailed | celery/sql_mongo_transfer.py:344-346 | a surviving group's ids are failed iff its wheelstack response is not 201 |
| ForwardSync.StackLoopPushed | celery/sql_mongo_transfer.py:344-354 | a row is pushed for acknowledgment iff it fills a slot of a surviving group answered with 201 |
| ForwardSync.StackLoopCreated | celery/sql_mongo_transfer.py:344-355 | the created wheelstack ids are exactly the ids of the 201 responses |
| ForwardSync.FailedWheelsExactly | celery/sql_mongo_transfer.py:301-346 | an id is reported failed iff it was created for a group that did not end as a wheelstack |
| ForwardSync.AckedRowsExactly | celery/sql_mongo_transfer.py:344-354 | a row goes to the correct-wheels list iff it fills a slot of a group whose wheels were all created and whose wheelstack was answered with 201 |
| ForwardSync.AckedRowsArePending | celery/sql_mongo_transfer.py:243-354 | only rows read as pending are ever pushed for acknowledgment |
| ForwardSync.StackRequestsContents | celery/sql_mongo_transfer.py:311-343 | every wheelstack request belongs to a group of the pending rows. It carries the platform, the group's row and column, capacity 6, status `basePlatform` and not blocked; the `order_no` of the first filled slot; and the ids created for the filled slots, in slot order |
| ForwardSync.SyncGroups | celery/sql_mongo_transfer.py:265-369 | the run over the groups always finishes; the failed-wheels list gets exactly the failed ids reported, one acknowledgment is scheduled per created wheelstack, cleanup iff some id failed, and no more wheelstacks are requested than there are groups |
| ForwardSync.Forward | celery/sql_mongo_transfer.py:231-369 | the task finishes iff the platform is found and something is pending; otherwise nothing is requested, pushed or scheduled |
| ForwardSync.SchedulingFlags | celery/sql_mongo_transfer.py:355-365 | cleanup is scheduled iff some id was pushed to the failed-wheels list, and that list gets exactly the reported failed ids; one acknowledgment is scheduled per created wheelstack |
| ForwardSync.EmptyInput | celery/sql_mongo_transfer.py:243-249 | with nothing pending, nothing is requested, pushed or scheduled |
| ForwardSync.OneGroupStacked | celery/sql_mongo_transfer.py:265-369 | a single group whose wheels are all created and whose wheelstack gets 201 gives one wheelstack, pushes the group's rows, fails nothing and schedules no cleanup |
| ForwardSync.OneGroupAborted | celery/sql_mongo_transfer.py:265-369 | a single group whose slot loop broke off requests no wheelstack, pushes no rows, and sends the wheels it created to cleanup |
| ForwardSync.TwoRowsAllCreated | celery/sql_mongo_transfer.py:243-369 | two rows of one wheelstack that are all created give one wheelstack carrying both ids, both rows acknowledged, no cleanup |
| ForwardSync.TwoRowsSecondWheelFails | celery/sql_mongo_transfer.py:243-369 | when the second wheel of a two-row wheelstack fails, no wheelstack is requested and the first wheel goes to cleanup |
| ForwardSync.CreateGroupWheels | celery/sql_mongo_transfer.py:273-308 | the slot loop computes what `CreateWheels` defines |
| ForwardSync.FindBatchNumber | celery/sql_mongo_transfer.py:317-322 | the batch number is the `order_no` of the first filled slot, or empty when no slot is filled |
| ForwardSync.PushRows | celery/sql_mongo_transfer.py:348-354 | the rows of the filled slots are appended to the correct-wheels list in slot order |
| ForwardSync.PushIds | celery/sql_mongo_transfer.py:362-363 | the failed ids are appended to the failed-wheels list in order |
| ForwardSync.CreateAllWheels | celery/sql_mongo_transfer.py:265-310 | the wheel loop over all groups yields the attempts, the aborted groups' ids, the requests sent and the surviving groups, as the specification functions define them |
| ForwardSync.CreateWheelstacks | celery/sql_mongo_transfer.py:311-356 | the wheelstack loop computes `StackLoop`, and the correct-wheels list grows by exactly the rows it pushed |
| ForwardSync.CreateWheelstack | celery/sql_mongo_transfer.py:315-356 | one wheelstack iteration is one `StackStep`, pushing the group's rows iff the response is 201 |
| ForwardSync.SqlTransferWheels | celery/sql_mongo_transfer.py:231-369 | the task's result and requests are those of `Forward` on the pending rows; the two staging lists grow by exactly the acknowledged rows and the failed ids |
| QueueTasks.MarkReadAckedExactly | celery/sql_mongo_transfer.py:63-96 | the task returns the staged rows iff LRANGE, the commit and every LREM succeed (or nothing was staged); then the list is empty |
| QueueTasks.MarkReadRetryChangesNothing | celery/sql_mongo_transfer.py:63-98 | a retry is asked for iff LRANGE fails or the batch does not commit, and then neither the list nor the table changed |
| QueueTasks.MarkReadNoLoss | celery/sql_mongo_transfer.py:92-95 | an entry leaves the list only after every pending ledger row with its key was marked consumed |
| QueueTasks.MarkReadRun | celery/sql_mongo_transfer.py:61-100 | every entry left on the list is one the run found; the table keeps its length, and it changes only when LRANGE succeeds, something was staged and the batch commits |
| QueueTasks.MarkReadRerunAfterRaise | celery/sql_mongo_transfer.py:92-100 | after an LREM raised, the next run commits a batch that changes nothing, returns the leftover entries and drains the list |
| QueueTasks.RemoveRecords | celery/sql_mongo_transfer.py:94-95 | the LREM loop raises iff some entry's LREM fails, and removes exactly the entries before that one, or all of them |
| QueueTasks.SqlMarkRead | celery/sql_mongo_transfer.py:61-100 | the task's outcome, the list and the read table it leaves are those of `MarkReadRun` |
| QueueTasks.ClearedIds | celery/sql_mongo_transfer.py:149-161 | no more ids are reported cleared than entries were walked |
| QueueTasks.RemovedIds | celery/sql_mongo_transfer.py:160-162 | no more ids are removed than were reported cleared |
| QueueTasks.ClearedExactly | celery/sql_mongo_transfer.py:149-164 | an id is reported cleared iff one of its DELETEs was answered ok (status below 400) |
| QueueTasks.RemovedExactly | celery/sql_mongo_transfer.py:160-162 | an id is removed from the list iff one of its DELETEs was answered ok (status below 400) and the LREM after it went through |
| QueueTasks.ClearRun | celery/sql_mongo_transfer.py:140-166 | the list is cleared (as opposed to a retry) iff LRANGE succeeds; a failed LRANGE sends no DELETE and leaves the list; the list left holds only entries it had |
| QueueTasks.StaysQueuedExactly | celery/sql_mongo_transfer.py:148-166 | an id stays on the failed-wheels list iff it was there and none of its entries had both its DELETE and its LREM succeed |
| QueueTasks.EveryEntryDeleted | celery/sql_mongo_transfer.py:149-164 | a DELETE is sent for every entry, in order, and a failure does not stop the loop |
| QueueTasks.CleanupAllOk | celery/sql_mongo_transfer.py:140-166 | when every DELETE and LREM succeeds, every id is reported and the list is drained |
| QueueTasks.SecondDeleteFails | celery/sql_mongo_transfer.py:149-166 | with three ids whose second DELETE fails, the first and third are cleared and only the second stays queued |
| QueueTasks.RedisClearFailedWheels | celery/sql_mongo_transfer.py:140-166 | the task's outcome, the DELETEs sent and the list it leaves are those of `ClearRun` |
| QueueTasks.ClearEntries | celery/sql_mongo_transfer.py:149-164 | the loop sends one DELETE per entry of the snapshot, returns `ClearedIds` and leaves the list without the ids of `RemovedIds` |
| ReverseSync.TransferredExactly | celery/mongo_sql_transfer.py:101-105 | an id is reported transferred iff its PATCH response was ok (status below 400) |
| ReverseSync.FailedExactly | celery/mongo_sql_transfer.py:101-106 | an id is reported failed iff its PATCH response was not ok |
| ReverseSync.ListsPartitionPatches | celery/mongo_sql_transfer.py:101-106 | every patched wheel lands on exactly one of the two lists |
| ReverseSync.Record | celery/mongo_sql_transfer.py:88-100 | a successful check-and-insert never removes audit rows and leaves a row with the wheel's natural key |
| ReverseSync.ItemStep | celery/mongo_sql_transfer.py:87-106 | after an earlier error the step changes nothing; otherwise it only adds audit rows, and it counts the wheel processed iff nothing raised, in which case the wheel has its audit row and its PATCH was answered |
| ReverseSync.Steps | celery/mongo_sql_transfer.py:87-106 | the loop processes a prefix of the listing, and all of it iff nothing raised |
| ReverseSync.ReverseRun | celery/mongo_sql_transfer.py:67-106 | a run never processes more wheels than were listed; a failed connection or listing GET raises, processes no wheel, sends no PATCH and leaves the write table as it was |
| ReverseSync.StepsAbsorb | celery/mongo_sql_transfer.py:87-106 | once a wheel's check or insert raised, the later wheels are not processed |
| ReverseSync.PatchedHaveRecord | celery/mongo_sql_transfer.py:87-102 | the write table only grows, and every wheel patched has an audit row with its natural key |
| ReverseSync.AuditKeysStayUnique | celery/mongo_sql_transfer.py:88-100 | the existence check keeps the write table free of duplicate natural keys |
| ReverseSync.CompletesWhenStoresUp | celery/mongo_sql_transfer.py:87-106 | with the insert as intended: when every check and insert succeeds, every PATCH is answered and every status is known, each listed wheel is processed |
| ReverseSync.KnownWheelsInsertNothing | celery/mongo_sql_transfer.py:88-100 | wheels whose rows are all present already add nothing to the write table |
| ReverseSync.SecondRunInsertsNothing | celery/mongo_sql_transfer.py:87-106 | with the insert as intended: observing the same wheels again after a complete run inserts no second row for any of them |
| ReverseSync.AsWrittenNeverInserts | celery/mongo_sql_transfer.py:97-100 | with the insert call as written, the loop never adds an audit row |
| ReverseSync.AsWrittenRaisesOnNewWheel | celery/mongo_sql_transfer.py:97-100 | with the insert call as written, a listed wheel with no audit row makes the task raise before its PATCH |
| ReverseSync.IntendedInsertsNewWheel | celery/mongo_sql_transfer.py:97-105 | with the insert as intended, that wheel gets its audit row and is reported transferred |
| ReverseSync.PatchRaiseKeepsRecord | celery/mongo_sql_transfer.py:97-102 | with the insert as intended, a PATCH that raises on a new wheel aborts the task after its audit row was committed, and the row stays |
| ReverseSync.TransferWheelsMongo | celery/mongo_sql_transfer.py:67-111 | the task's result, the PATCHes answered and the write table it leaves are those of `ReverseRun` with the intended insert; a raised check, insert or PATCH aborts it with the rows committed so far |

## Left out

- Configuration from environment variables, the connection strings, the
  authentication token (`get_auth_token`) and the Celery app wiring in
  `celery/wheels_celery.py` are not modelled. They only supply parameters.
- ForwardSync.SqlTransferWheels: does not model an exception raised by
  `requests` (a timeout, a refused connection) in the middle of either
  loop. That exception ends the task with the lists partly pushed.
- ForwardSync.SqlTransferWheels: a failed platform lookup raises in the
  source. The model returns the value `PlatformNotFound` with no side effect.
- ForwardSync.SqlTransferWheels: requires every pending row's
  `number_in_stack` to lie in 0..9. Another value makes the source raise
  an IndexError (or wrap around, for a negative index). That raise is
  not modelled. The same requirement (`InSlotRange` or `AllInSlotRange`)
  is on every Grouping member that places or groups rows (`Place`,
  `Grouped`, `LookupPlace`, `GroupedSlots`, `GroupedRowOrder`,
  `GroupedColOrder`, `GroupsOfGrouped`, `GroupRowIsWheel`, `GroupWheels`,
  `PlaceWheel`), and on the ForwardSync members over pending rows
  (`Forward`, `FailedWheelsExactly`, `AckedRowsExactly`,
  `AckedRowsArePending`, `StackRequestsContents`, `SchedulingFlags`).
- Ledger.Database.GetWheelsData: does not model the raise when the SELECT
  fails. The forward sync then raises too.
- Ledger.Database.GetWheelsData: stamps every row with one clock reading
  per call. The source reads the clock once per row
  (celery/wheels_actions.py:56), so rows of one read may differ in
  `timestamp_submit` by the time the loop takes.
- An RPUSH failure in the forward sync is not modelled. RPUSH always
  succeeds.
- Clocks are parameters:
  - the time of the read in `get_wheels_data`;
  - the insert's own `datetime.now(timezone.utc)`, taken as `clock(i)`
    for the `i`-th listed wheel. The strftime timestamp that the reverse
    loop computes is never used by the three-parameter insert.
  - The wheel request's `receiptDate` and the `use_timezone` branches are
    left out.
- JSON encoding and decoding is not modelled. A staged entry is the row
  itself, and `str()` of row, column and ids is the value itself.
- Celery's `self.retry`, `countdown`, `max_retries` and `.delay()` are not
  modelled. They are outcome values (`RetryRequested`) and counters/flags
  (`ackScheduled`, `cleanupScheduled`).
- Concurrency is not modelled. No other writer touches the lists or tables
  during a run, and task interleavings are not modelled.
- The two nested loops over `wheelstacks_data` are one loop over its
  groups in visiting order.
  - The dict's in-place mutation and aliasing (`created_wheels` is the
    list inside the dict) are modelled on values.
  - The deletion of failed groups is modelled as the list of surviving
    groups.
- QueueTasks.SqlMarkRead:
  - every database error is taken as a `pyodbc.Error`, which asks for a
    retry;
  - an LREM failure is named by the index of the first LREM that raises;
  - a decoding error of a staged entry is not modelled.
- QueueTasks.RedisClearFailedWheels: an exception from the LREM after an
  ok DELETE is modelled as that entry's `lremOk = false`. An exception
  from the DELETE is modelled as a reply that is not ok.
- QueueTasks.RedisClearFailedWheels: ids are taken as already decoded.
  The `decode('utf-8')` at celery/sql_mongo_transfer.py:150 sits outside
  the `try`, so an undecodable entry aborts the whole cleanup; that raise
  is not modelled.
- Key columns are compared with exact string equality (`Ledger.HasKey`,
  `Ledger.AckKeyOf`). SQL Server's `=` follows the column collation,
  which may ignore case and trailing blanks. Collation is not modelled.
  The keys are read back from the same columns, so this matters only for
  values that differ in case or trailing blanks.
- Ledger.Database.CreateTransferRecord: a failure of `cursor()`, `execute`
  or `commit` is one `storeUp` flag, checked after the status translation.
  The exception message is not modelled.
- Debug `print`s, cursor and connection `close()`, and the exact key names
  of the returned dicts are not modelled.
- ReverseSync.TransferWheelsMongo: models the intended three-argument
  insert. The call as written is `ReverseSync.Steps` with `AsWritten`; see
  "Findings".

## Findings

| source | as written | input that shows it | evidently intended | confidence | as-written member | corrected member |
|---|---|---|---|---|---|---|
| celery/mongo_sql_transfer.py:98-100 (against celery/wheels_actions.py:104-108) | `sql_create_transfer_record` is called with four arguments, but it takes three, so the call raises a TypeError | one listed wheel with no audit row for its natural key, and an existence check that succeeds | insert the audit row, then PATCH the wheel as transferred | not executed | ReverseSync.AsWrittenRaisesOnNewWheel | ReverseSync.IntendedInsertsNewWheel |
