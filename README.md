# GPU job daemon: job registry and spot price oracle

This project models the core of a small daemon that runs machine-learning jobs on a
cloud GPU spot instance only while the spot price stays below each job's threshold.
It models three parts:

- The job registry (`src/db.js`). Jobs are kept in registry order. Each job has one of five
  states (PENDING, IN_PROGRESS, HALTED, DONE, CANCELED). It also has an append-only state
  history whose last entry is always the job's current state. A lookup by id returns the
  first match. A state change overwrites the state and appends `(state, timestamp)` to the
  history. Any state may follow any state.
- The price oracle (`src/aws.js`). It keeps two lists: the observed spot prices and the
  operator's mocked prices. The combined view is the observed list followed by the mocked one,
  and the current price is its last point. While any mocked price exists, a refresh does
  nothing. Otherwise a refresh replaces the observed list with the fetched points, sorted
  ascending by timestamp.
- The job lifecycle handlers (`src/api.js`), without the HTTP layer. They are: create, record
  metrics, start, halt, finish, the price admission check (admitted iff threshold > current
  price), and the sweep that moves every PENDING or HALTED job to IN_PROGRESS.

Module `Jobs` (jobs.dfy) models `src/db.js`. Module `Prices` (prices.dfy) models `src/aws.js`.
Module `Api` (api.dfy) models the handlers of `src/api.js`. `Wrappers` (wrappers.dfy) holds
`Option`.

The registry (`Jobs.Registry`) and the oracle (`Prices.PriceOracle`) are classes. Their methods
update the fields in place, as the source does. A job is a datatype value. When the source
mutates a job object, the model replaces that element of `Registry.jobs`.

How the source's inputs are modelled:

- The clock reading `now` is an integer parameter of every operation that stamps a time.
  The sweep reads the clock once per state change, so it takes one reading per selected job
  (`stamps`, in selection order).
- The generated uuid is a parameter `freshId`.
- The AWS price query's answer is a parameter of type `Fetch`.
- Prices and metric values are `real`. The code only stores and compares them.
- Timestamps are `int`. The source sorts ISO-8601 strings in one fixed format, and for those
  the string order is the time order.
- Request fields that Joi validates become typed parameters. Optional fields are `Option`.

An unknown job id makes every handler fail with a TypeError before anything changes. The model
returns `ok == false` (`NotFound` for admission) and leaves the registry as it was. Reading the
current price of an empty history fails in the source (`last([]).price`). The model gives
`None`, and the admission check answers `NoPrice`.

Behaviour of the code that a reader might not expect:

- Creation never rejects an id already in use; there is no duplicate-id error.
  `Api.FindAfterAppend` shows what happens instead: the later job can never be found by id.
- The handler picks the id with `id || uuid()`, so an empty caller id would fall back to the
  generated id. The request validation (`Joi.string()`) rejects the empty string before the
  handler runs, so this case does not arise in the program. `Api.NewJob` still follows the `||`.
- Timestamps in a history are non-decreasing only if the clock never runs backwards. The code
  does not enforce this, so `Jobs.SetStateKeepsChronological` takes it as a precondition.
- Refresh suppression is the emptiness test on the mocked list, not a separate tagged source.
- A refresh whose fetch returns no points empties the observed list. The log line that
  follows then fails reading the current price, so the outcome is `NoPriceData` after the
  change.

## Model

| member | source | states |
|---|---|---|
| `Jobs.FindJob` | src/db.js:17-19 | the result is the index of the FIRST job with the id in registry order; None exactly when no job has the id |
| `Jobs.Registry.GetJob` | src/db.js:17-19 | returns a job of the registry with that id that no earlier job's id matches; None iff no job has the id |
| `Jobs.SetStateById` | src/db.js:21-28 | only the job the lookup finds changes. Its state becomes the new one whatever the old state was. Its history grows by exactly one entry `(newState, now)` and keeps the old history as a prefix. No other field and no other job changes. An unknown id changes nothing. Ids are kept, and the "history non-empty, last entry = state" invariant is preserved |
| `Jobs.Registry.SetJobState` | src/db.js:21-28 | the registry's jobs become `SetStateById` of the old ones; `ok` iff the id exists; the registry invariant is kept |
| `Jobs.SetStateKeepsChronological` | src/db.js:24-27 | if no recorded timestamp is later than `now`, every history stays non-decreasing in time after a state change |
| `Jobs.Registry.constructor` | src/db.js:4-6 | the registry starts from bootstrap jobs that satisfy the invariant |
| `Prices.Insert` | src/aws.js:54-61 | inserting into a sorted list gives a sorted list one longer with the point added to its multiset |
| `Prices.SortByTs` | src/aws.js:54-61 | the result has the same length and multiset as the fetched points and is ascending by timestamp |
| `Prices.SortByTsStable` | src/aws.js:54-61 | for every timestamp, the points with that timestamp keep their input order (the sort is stable) |
| `Prices.SortByTsOfSorted` | src/aws.js:54-61 | already ascending input is returned unchanged, so sorting a sorted history is the identity |
| `Prices.PriceOracle.constructor` | src/aws.js:29-30 | both lists start empty |
| `Prices.PriceOracle.History` | src/aws.js:74-76 | the combined view is the observed points followed by the mocked points: its first part is the observed list, the rest the mocked list. It only reads the oracle |
| `Prices.PriceOracle.CurrentPrice` | src/aws.js:70-76 | the price of the last point of observed-then-mocked. Defined iff either list is non-empty. The last mocked price wins over every observed price |
| `Prices.PriceOracle.Refresh` | src/aws.js:37-68 | while mocked prices exist, nothing changes (`Suppressed`). A failed fetch changes nothing. Otherwise observed becomes the sorted fetched points, and the outcome is `NoPriceData` when the fetch was empty. The mocked list is never touched |
| `Prices.PriceOracle.AddMock` | src/aws.js:78-83 | appends exactly one point `(price, now)` to the mocked list. Observed is unchanged. The current price becomes `price`, and refreshes are suppressed from then on |
| `Prices.PriceOracle.ClearMocks` | src/aws.js:85-87 | the mocked list becomes empty, observed is unchanged, and refreshes are enabled again |
| `Prices.ClearMocksTwice` | src/aws.js:85-87 | clearing twice leaves the same state as clearing once |
| `Api.NewJob` | src/api.js:42-62 | the new job is PENDING with the single history entry `(PENDING, start time)`. Its id is the caller's id, or the generated one when none is given. Command, description and threshold price are the request's. It has no training or validation metrics and no epoch counters. Its instance type, region and zone are the supported constants, and it satisfies the registry invariant |
| `Api.CreateJob` | src/api.js:40-64 | the new job is appended at the end of the registry and all existing jobs are unchanged. An id already in use is accepted, and lookups of it still find the earlier job. An id not yet in use is found at the new last index and keeps the ids distinct |
| `Api.FindAfterAppend` | src/api.js:64 | after an append, a new id is found at the end. An existing id still finds the earlier job, so a duplicate is unreachable. Other lookups are as before |
| `Api.RecordMetric` | src/api.js:121-131 | sets `epoch` and appends `training` once. It appends `validation` only when one is supplied. Nothing else changes, and nothing at all changes for an unknown id |
| `Api.StartJob` | src/api.js:152-156 | one state change to IN_PROGRESS, then `numEpochs` is recorded; unknown id changes nothing |
| `Api.HaltJob` | src/api.js:173-176 | one state change to HALTED; unknown id changes nothing |
| `Api.FinishJob` | src/api.js:193-196 | one state change to DONE; unknown id changes nothing |
| `Api.CheckAdmission` | src/api.js:215-227 | an unknown job gives `NotFound`, and an empty price history gives `NoPrice`. Otherwise the result is `Admitted` iff threshold > current price and `Rejected` iff threshold <= current price, so equality is rejected |
| `Api.StartableIndices` | src/api.js:233-236 | exactly the indices of the PENDING or HALTED jobs, strictly increasing (registry order) |
| `Api.SetStateMany` | src/api.js:238-240 | a sequence of state changes keeps the length, the ids and the registry invariant |
| `Api.SweepPending` | src/api.js:232-242 | the registry becomes the result of one IN_PROGRESS state change per selected job id, in order, the j-th stamped with the j-th clock reading. The returned list is the selected jobs as they are afterwards |
| `Api.SetStateManyAt` | src/api.js:238-240 | with distinct ids, state changes by the ids of distinct indices change exactly the jobs at those indices: the job at `idx[j]` gets one entry stamped `stamps[j]` |
| `Api.SweepEffect` | src/api.js:234-240 | with distinct ids, the j-th selected job becomes IN_PROGRESS with one more history entry stamped with the j-th clock reading, and every job that is not PENDING or HALTED is untouched |
| `Api.SweepStartsAll` | src/api.js:234-240 | with distinct ids, every job that was PENDING or HALTED is IN_PROGRESS after the sweep, and every other job is unchanged |
| `Api.SweepResult` | src/api.js:234-242 | with distinct ids, the returned jobs are the startable ones in registry order, the j-th now IN_PROGRESS with `(IN_PROGRESS, stamps[j])` appended |
| `Api.SweepTwiceSelectsNothing` | src/api.js:234-240 | with distinct ids, a second sweep right after the first selects no job |
| `Api.NothingStartable` | src/api.js:234-236 | when no job is PENDING or HALTED the selection is empty |
| `Api.SweepWithSharedId` | src/api.js:234-240 | when two jobs share an id, both are selected. The first one is changed twice and the second never, so the second is returned still HALTED |

`Api.AdmissionScenario` and `Api.SweepScenario` are client methods. They check two concrete
scenarios against the contracts alone. In the first, a job with threshold 5.0 gets no price,
then is admitted at a mocked price of 4.5, then is rejected at 5.0; a refresh meanwhile is
suppressed. In the second, a sweep over a PENDING, a HALTED and a DONE job returns the first two,
both now IN_PROGRESS, and leaves the DONE job untouched.

## Left out

- The Express router, the `celebrate`/Joi validation and the JSON responses, including `/state`
  and the `/prices` and `/prices/clear` routes, which only call `AddMock` and `ClearMocks`.
  Validated fields are typed parameters.
- The AWS SDK client and the `describeSpotPriceHistory` request: the answer is the `Fetch`
  parameter. An absent `SpotPriceHistory` field is the empty sequence. The conversion of each
  point with `Number` and `getTimestamp` is assumed done, and a price that does not parse is
  not modelled.
- `getTimestamp`'s moment/ISO formatting: the clock is the integer `now`.
- `uuid` generation: the generated id is the `freshId` parameter. Whatever uniqueness the
  generator has appears in `Api.CreateJob` only as the case "id not yet in use".
- `getOnDemandPrice` and the bootstrap `data/init.json`: the data files are not part of this
  model. The registry constructor takes the bootstrap jobs as a parameter.
- The commented-out fleet, boot and stop code in `src/aws.js`. The finish handler goes on to
  call `stopInstance`, which `src/aws.js` no longer defines. The model stops at the DONE state
  change and says nothing about the response after it.
- `src/crons.js` and `src/index.js` (scheduling, remote state polling, shell execution,
  `Promise.all`), and all console logging. The exception is the one log line whose price read
  fails after an empty refresh; the model keeps that failure.
- Object aliasing: a job is a value. The handlers that return a job object would show it with
  later mutations; only the sweep's returned list is modelled that way.
- Prices.PriceOracle.Refresh: the refresh is modelled as one atomic step. In the source the
  mocked-list check happens before the fetch is awaited, and the observed list is assigned
  after it. A mocked price added while the fetch is pending therefore does not stop the
  replacement: the observed list changes while mocked prices exist, though the current price
  stays the mocked one. The model does not capture this interleaving.
- Floating-point prices (NaN, rounding): prices are `real`, and the code only compares them.
- `Api.SweepEffect`, `Api.SweepResult`, `Api.SweepTwiceSelectsNothing`: these state the sweep's
  effect only for registries with distinct ids. `Api.SweepWithSharedId` shows what happens
  when ids are shared.
