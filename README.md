# NinjaOne activity collector: a Dafny model of the collection cycle

The system relays NinjaOne activity records to a Wirespeed webhook. A Cloudflare
Worker routes `/init` to a singleton Durable Object, `CollectorDO`. That object
keeps three durable cells: the `initialized` flag, the `lastActivityId` cursor
and a pending alarm. Each collection cycle (`collectLogs`) runs these steps:

1. It obtains a token.
2. It queries one page of activities. A cold start asks for the last 24 hours.
   Otherwise it asks for the records newer than the stored cursor.
3. It sorts a copy of the page by id and forwards each record in that order.
4. It stores the largest id as the cursor.
5. On a cold start it sets `initialized`.
6. On every exit it re-arms the alarm 60 seconds ahead, errors included.

The project has five modules:

- `Optional` (optional.dfy) holds the `Option` type: a storage read of a key
  that was never written.
- `NinjaTypes` (ninja_types.dfy) holds the activity record. Its `id` drives the
  logic. The other fields form an opaque payload.
- `ActivitySort` (activity_sort.dfy) holds the defensive re-sort. It is a pure
  stable sort by id, with lemmas for sortedness, permutation, stability and
  last-is-maximum.
- `CollectorSpec` (collector_spec.dfy) holds the cycle as a pure function,
  `Cycle`, of the cells before the run and of an `Env`. The `Env` carries
  everything the outside world answers: the token reply, the activities
  endpoint as a function of the query, each webhook reply, `TEST_MODE`, and two
  clock readings. The module also holds `QueryFilter`, the control flow of
  `postToWirespeed`, the `/init` answer, and the lemmas.
- `Collector` (collector.dfy) holds the `CollectorDO` class. The three durable
  cells are its fields. `CollectLogs` runs the cycle step by step. Its awaited forward
  loop is `ForwardBatch`. `CollectLogs` is proved to leave exactly the cells and forwards
  that `Cycle` gives. The module also holds `Alarm`, the object's `Fetch`, and
  the Worker router `WorkerFetch`.

The model follows what the code does, including where one might expect more
of a collector like this:

- One might expect the cursor never to decrease. The code writes the batch
  maximum as the cursor without comparing it with the stored one. A cold start after an
  earlier cursor can lower it (`ColdStartCanLowerCursor`).
- A cold start whose cycle fails still answers 200 "Collector initialized". It
  leaves `initialized` unset, so the next `/init` runs the cold start again
  (`SecondInit`).
- An alarm that fires before initialisation runs in incremental mode, not
  cold-start mode.
- A forward whose POST throws, as opposed to one that gets a non-2xx reply,
  escapes `postToWirespeed`. It aborts the rest of the batch, and the cycle then
  writes neither the cursor nor the flag.
- The stored cursor is tested for truthiness, so a stored 0 behaves like no
  cursor.

## Model

| member | source | states |
|---|---|---|
| ActivitySort.SortByIdSortsAndPermutes | src/index.ts:74 | the sorted copy is in non-decreasing id order and is a permutation of the fetched batch, so duplicates are kept |
| ActivitySort.SortByIdIsStable | src/index.ts:74 | for every id, the records with that id leave the sort in the order the source returned them |
| ActivitySort.InsertSorted | src/index.ts:74 | inserting a record into an id-sorted sequence keeps it sorted |
| ActivitySort.InsertPermutes | src/index.ts:74 | insertion adds exactly the one record to the multiset of records |
| ActivitySort.InsertKeepsEqualIds | src/index.ts:74 | insertion never moves a record past one with the same id |
| ActivitySort.WithIdAppend | src/index.ts:74 | selecting the records with one id distributes over concatenation |
| ActivitySort.SortByIdSameMembers | src/index.ts:74 | a record is in the sorted copy exactly when it is in the fetched batch |
| ActivitySort.MaxId | src/index.ts:81-85 | the largest id of a non-empty batch is carried by one of its records and bounds every id in it |
| ActivitySort.LastIsMax | src/index.ts:82-85 | the last record of the sorted copy belongs to the batch and carries its largest id |
| ActivitySort.SortExample | src/index.ts:74 | ids [5, 2, 9, 2] sort to 2, 2, 5, 9, with the two 2s in arrival order |
| CollectorSpec.QueryFilter | src/index.ts:44-55 | every query asks for 1000 records; a cold start filters `after` now minus 86400000 ms; otherwise a truthy cursor C gives `newerThan` C and an absent or 0 cursor gives no filter |
| CollectorSpec.IncrementalIgnoresZeroCursor | src/index.ts:51-54 | a stored cursor of 0 produces the same unfiltered query as no cursor |
| CollectorSpec.PostToWirespeed | src/index.ts:133-156 | a forward throws exactly when TEST_MODE is off and the POST fails in transport; TEST_MODE only logs |
| CollectorSpec.FirstThrow | src/index.ts:77-79 | the index of the first forward in the batch that throws, or the batch length when none does: no earlier forward throws, and the one at that index does |
| CollectorSpec.Cycle | src/index.ts:39-107 | every run leaves the alarm at the end clock plus 60000 ms; `initialized` ends up true exactly when it was already set or an init run raised no error; a caught error leaves the cursor as it was; a token failure is exactly the case in which no query is sent, and it is reported as the token error; a run that fetched nothing raised an error and forwarded nothing |
| CollectorSpec.ForwardOrder | src/index.ts:72-79 | records are handed to postToWirespeed in non-decreasing id order, as a prefix of the sorted batch; a run with no error forwards a permutation of the whole batch; a failed request forwards nothing |
| CollectorSpec.CursorIsBatchMax | src/index.ts:82-87 | after a non-empty batch and no error, the stored cursor is the largest id of the batch |
| CollectorSpec.EmptyBatchKeepsCursor | src/index.ts:72-91 | an empty batch raises no error and leaves the cursor unchanged |
| CollectorSpec.CursorRisesIff | src/index.ts:82-86 | after a completed non-empty batch the new cursor is at least the old cursor exactly when some fetched id is at least the old cursor |
| CollectorSpec.HonouredCursorAdvances | src/index.ts:51-54 | when every record of an incremental batch is newer than the truthy cursor, a completed cycle moves the cursor strictly forward |
| CollectorSpec.ColdStartCanLowerCursor | src/index.ts:46-49 | a cold start ignores the stored cursor, so cursor 500 becomes 102 after a cold-start batch of ids 101 and 102 |
| CollectorSpec.NonThrowingForwardsComplete | src/index.ts:77-96 | when no forward throws, because replies are non-2xx at worst or TEST_MODE is on, the whole sorted batch is forwarded, the cursor becomes the batch maximum, and an init run sets the flag |
| CollectorSpec.ThrowingForwardAborts | src/index.ts:77-96 | the cycle aborts on a forward exactly when TEST_MODE is off and some forward in the batch fails in transport; it stops right after the first such forward and leaves the cursor and the flag unchanged |
| CollectorSpec.FailedRequestsWriteNothing | src/index.ts:65-66 | a failed token exchange or activities query forwards nothing and changes only the alarm |
| CollectorSpec.AlarmNeverInitializes | src/index.ts:34-37 | an incremental cycle, which is what an alarm runs, never changes `initialized` |
| CollectorSpec.InitEndpoint | src/index.ts:21-30 | `/init` with the flag set answers "Collector already initialized" and changes nothing; without it, it runs a cold-start cycle and answers "Collector initialized" whatever the cycle's outcome |
| CollectorSpec.SecondInit | src/index.ts:24-29 | after a cold start that raised no error, the next `/init` is a no-op that answers "already initialized"; after one that failed, the next `/init` runs the cold start again |
| CollectorSpec.ColdStartExample | src/index.ts:39-100 | a cold start at T0 with no stored state that fetches ids 101 and 102 forwards both, stores cursor 102, sets the flag, and arms the alarm at T0 + 60000 |
| CollectorSpec.OrderingExample | src/index.ts:72-87 | an incremental batch with ids [5, 2, 9, 2] is forwarded as 2, 2, 5, 9 and leaves cursor 9 |
| CollectorSpec.FetchErrorExample | src/index.ts:51-105 | with cursor 102 and a failed fetch, the query is `newerThan` 102, nothing is forwarded, the cursor stays 102, and the alarm is re-armed |
| Collector.CollectorDO.constructor | src/index.ts:15-19 | a fresh object starts with no stored flag, cursor or alarm |
| Collector.CollectorDO.CollectLogs | src/index.ts:39-107 | running the steps in order, with the awaited forward loop, leaves exactly the cells and the forward sequence that `Cycle` gives |
| Collector.CollectorDO.ForwardBatch | src/index.ts:77-79 | the awaited loop hands the sorted records to postToWirespeed in order and stops right after the first forward that throws, so its output is the prefix up to and including that forward, or the whole batch when none throws |
| Collector.CollectorDO.Alarm | src/index.ts:34-37 | an alarm runs `Cycle` in incremental mode whatever the stored flag says |
| Collector.CollectorDO.Fetch | src/index.ts:21-32 | `/init` answers and updates the cells as `InitEndpoint` says; with the flag set, or on any other path (answered 200 "DO fetch"), nothing changes |
| Collector.WorkerFetch | src/index.ts:3-13 | `/init` is handed to the singleton collector; every other path is answered 404 "Not found" and leaves the collector untouched |

## Left out

- The HTTP calls are not modelled. These are the OAuth 2.0 client-credentials
  token request (section 4.4 of RFC 6749), the activities GET and the webhook
  POST. Each becomes an outcome in `Env`, and no foreign call can be verified.
- A failed token or activities request covers a non-2xx reply, a transport
  failure and an unreadable JSON body alike. Each of them throws inside the
  `try` block.
- JSON parsing and serialisation, URL building and `toISOString` are not
  modelled. The query is a `Query` datatype, and time is integer milliseconds.
- The webhook request body is not modelled. A forward is recorded as the
  activity handed to `postToWirespeed`.
- Logging is not modelled. This includes the branch at src/index.ts:88-91,
  which only logs and reads `data.lastActivityId` for that log line.
- The inert `PARSE_OCSF` branch (src/index.ts:136-138) is left out because it
  has no effect.
- The Durable Object runtime is not modelled: `idFromName('singleton')`
  uniqueness, storage durability and when alarms fire. The model assumes one
  writer running sequentially. `WorkerFetch` receives the singleton object as a
  parameter.
- The model assumes storage writes and `setAlarm` always succeed.
- An awaited call that never returns is not modelled. The code has no timeout,
  so such a cycle never reaches either `setAlarm` and arms no alarm. Every
  statement here about a run holds only for runs whose awaited calls return.
- `Date.now()` is read twice at the end of a run (src/index.ts:99 and 105), but
  only one of those reads happens on any path. Both are `Env.endClock`.
- Activity ids are unbounded integers, so the model ignores the precision loss
  of JavaScript numbers above 2^53. The check at src/index.ts:83 that the last
  element exists always holds for a non-empty batch, so it is not modelled
  separately.
- src/types/ninja.types.ts is interface declarations only. Only `Activity.id`
  and the `activities` list take part.
- Request URLs are not modelled. Both fetch handlers receive the path
  directly instead of parsing it from the URL.
