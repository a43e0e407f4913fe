# Flexible child-process pool: a verified model of its scaling state machine

This project models the `Flexible` pool manager of a ReactPHP child-process
pool (`src/Manager/Flexible.php`). The manager keeps a list of running
workers, a counter of spawns still in flight (`startingProcesses`) and a
round-robin cursor over its spawn strategies. It grows the pool between
`minSize` and `maxSize` when `ping()` is called.

The model treats every asynchronous continuation of the source as its own
pure transition over an immutable `Pool` value:

- the synchronous part of `spawn()`;
- a spawn's promise being fulfilled or rejected;
- a worker's `terminating` and `error` events;
- `ping()`, which also returns the action it took: `SpawnedK(k)`, `Ready(w)`, `SpawnedOne` or `NoOp`.

Modules:

- `Rotation`: the strategy cursor. `next()` then `rewind()` when it runs off the end.
- `Retry`: `spawnAndGetMessenger`, the timeout-retry helper. A strategy's
  successive outcomes are a finite sequence of `Timeout`, `Channel(c)` and `Rejected`.
- `Flexible`: the pool state, the spawn, termination and failure transitions,
  `ping`, `getTotal` and `info`.
- `Machine`: runs of the manager as sequences of events. Beside the pool, a run
  keeps the number of spawn attempts really in flight and the number of
  fulfilled spawns whose continuation has not yet decremented
  `startingProcesses`. This lets the model compare the counter with what it
  is meant to count. A fulfilled spawn is two events, registration (with
  `ready`) and the decrement, so anything a `ready` listener does can happen
  in between.
- `Wrappers`: `Option`.

Two defects of the source are modelled as written and also in corrected form
(see "## Findings"). The transitions named in the source (`Ping`,
`SpawnFailure`) are the code as written. `Machine` models runs under either reading,
selected by `Build` (`AsWritten` or `Corrected`). The bound and counting
invariants are proved for the corrected reading. The as-written reading gets
the counterexamples and the weaker bound that still holds.

Where the code departs from what it evidently intends, the model follows the
code:
- On a rejected spawn the code does not decrement `startingProcesses` before pinging.
- The catch-up loop in `ping()` spawns one more worker than the shortfall.

Line 124 of the source (`$++`) does not parse. The model reads it as `$i++`.

## Model

| member | source | states |
|---|---|---|
| Rotation.Advance | src/Manager/Flexible.php:104-107 | after a spawn the cursor moves to the next strategy and wraps to 0 past the last one; it is `(cursor + 1) % n` and stays in `[0, n)` |
| Rotation.AdvanceN | src/Manager/Flexible.php:104-107 | after at least one spawn, or from a valid position, the cursor is a valid strategy index |
| Rotation.AdvanceNIsModular | src/Manager/Flexible.php:104-107 | `k` spawns from a valid position move the cursor to `(cursor + k) % n` |
| Retry.SpawnAndGetMessenger | src/Manager/Flexible.php:110-119 | the helper settles only at a non-timeout outcome after all earlier outcomes timed out: a messenger resolves, a rejection fails; it stays pending exactly when every outcome is a timeout |
| Retry.SettlesAtFirstNonTimeout | src/Manager/Flexible.php:110-119 | conversely, the first non-timeout outcome at index `i` decides the result after exactly `i + 1` invocations |
| Retry.RetryLoop | src/Manager/Flexible.php:110-119 | the loop form agrees with the recursion, every invocation is of the one strategy it was handed, and the number of invocations is the number of outcomes consumed |
| Retry.ScenarioTimeoutThenChannel | src/Manager/Flexible.php:110-119 | one timeout then a messenger resolves with that messenger on the second invocation |
| Flexible.SpawnStart | src/Manager/Flexible.php:69-108 | one spawn adds one to the committed size, leaves workers and settings alone and rotates the cursor to `(cursor + 1) % n` |
| Flexible.SpawnStartN | src/Manager/Flexible.php:59-61 | `k` spawns add `k` to the in-flight count and advance the cursor `k` times, leaving workers and settings alone |
| Flexible.Construct | src/Manager/Flexible.php:53-62 | absent options take the defaults 0 and 4; an empty pool issues exactly `max(minSize, 0)` spawns and the cursor ends at that count modulo `n` |
| Flexible.SpawnRegister | src/Manager/Flexible.php:75-98 | before the decrement, the fulfilled spawn's worker is appended at the end and `ready` is emitted for it, so the committed size counts it twice until the decrement; a fresh worker keeps the registry duplicate-free |
| Flexible.SpawnSettle | src/Manager/Flexible.php:99 | the decrement takes one spawn out of the in-flight count and changes nothing else |
| Flexible.SpawnSuccess | src/Manager/Flexible.php:74-99 | with no listener acting in between, a fulfilled spawn appends the worker at the end, emits `ready` for it and moves one unit from in-flight to running, so the committed size is preserved; a fresh worker keeps the registry duplicate-free |
| Flexible.Spawn | src/Manager/Flexible.php:69-108 | the retry helper invokes only the strategy under the cursor before rotation, and its result is that strategy's settled outcome; the cursor then moves to `(cursor + 1) % n`; the promise's continuations are taken to run after `spawn()` returns |
| Flexible.IndexOf | src/Manager/Flexible.php:81-86 | finds the first entry identical to the worker, or reports that none is |
| Flexible.RemoveFirst | src/Manager/Flexible.php:80-87 | a worker not present leaves the list unchanged; otherwise exactly one entry goes |
| Flexible.RemoveFirstSplices | src/Manager/Flexible.php:80-87 | removal drops exactly the first matching entry and keeps all others in their relative order |
| Flexible.RemoveFirstOfDistinct | src/Manager/Flexible.php:80-87 | on a duplicate-free registry the terminated worker is no longer present and no duplicate appears |
| Flexible.Terminating | src/Manager/Flexible.php:80-87 | the `terminating` handler splices out the first entry of the worker, touches nothing else, and the worker is never present afterwards |
| Flexible.FirstIdle | src/Manager/Flexible.php:130-135 | the scan finds the first idle worker in registration order, and finds none exactly when all are busy |
| Flexible.Scale | src/Manager/Flexible.php:130-139 | with an idle worker it emits `ready` for the first one and changes nothing; otherwise below `maxSize` it issues one spawn, at or above it it does nothing |
| Flexible.Ping | src/Manager/Flexible.php:121-140 | below `minSize`: only catch-up spawns, workers unchanged, committed size `minSize + 1`; otherwise `ready` for the first idle worker with the state unchanged, or one spawn below `maxSize`, or no change; in every branch `starting` and the cursor advance by the spawns issued |
| Flexible.PingCorrected | src/Manager/Flexible.php:123-127 | with a strict loop bound the catch-up brings the committed size to exactly `minSize`; above it the behaviour is that of `Ping` |
| Flexible.CatchUp | src/Manager/Flexible.php:123-127 | the inclusive loop runs `minSize - (workers + starting) + 1` times and leaves the state `Ping` produces |
| Flexible.SpawnFailure | src/Manager/Flexible.php:100-102 | a rejected spawn only pings: the in-flight count is not reduced and grows by whatever the ping issues; the ping's branch is chosen on a committed size that still counts the failed spawn, so on a pool of busy workers at or above `maxSize` the failure is never replaced; settings unchanged, cursor rotated once per spawn |
| Flexible.SpawnFailureCorrected | src/Manager/Flexible.php:100-102 | with the failed spawn taken out first, the committed size drops by one before the ping's spawns are added; at or below `minSize` it is brought back to exactly `minSize`, and on a pool of busy workers not above `maxSize` one spawn replaces the failure; settings unchanged, cursor rotated once per spawn |
| Flexible.WorkerError | src/Manager/Flexible.php:91-97 | an unexpected process end requests the worker's termination and pings; the ping sees the worker still registered or, when its removal came first, already gone, and then never surfaces it; the counter, cursor and settings change only as that ping's spawns dictate; any other error changes nothing |
| Flexible.DyingWorkerSurfaced | src/Manager/Flexible.php:91-97 | when the worker is still registered and idle, the handler's ping emits `ready` for the dying worker instead of replacing it |
| Flexible.DyingWorkerReplaced | src/Manager/Flexible.php:91-97 | when the removal came first, the same pool's ping spawns a replacement: two spawns as written, one corrected |
| Flexible.BusyPlusIdle | src/Manager/Flexible.php:165-179 | busy and idle workers together are all the workers |
| Flexible.AllBusyCount | src/Manager/Flexible.php:165-179 | the busy count equals the total exactly when no worker is idle |
| Flexible.GetTotal | src/Manager/Flexible.php:160-163 | the total counts running workers and excludes spawns in flight |
| Flexible.Info | src/Manager/Flexible.php:165-179 | `total` is the number of workers, `busy` the busy ones, `idle` the idle ones, `busy + idle == total` and `0 <= busy <= total` |
| Machine.Start | src/Manager/Flexible.php:53-62 | a new manager has no workers and all its constructor spawns in flight; with `0 <= minSize <= maxSize` it is within `maxSize` |
| Machine.OnPing | src/Manager/Flexible.php:121-140 | the pool becomes the ping's result and the spawns it issues are added to the attempts in flight, keeping the invariants |
| Machine.OnResolved | src/Manager/Flexible.php:75-98 | the pool becomes the registration's result, and one attempt moves from in flight to unsettled, keeping the invariants |
| Machine.OnSettled | src/Manager/Flexible.php:99 | the pool becomes the decrement's result, and one unsettled continuation ends with the attempts in flight unchanged, keeping the invariants |
| Machine.OnRejected | src/Manager/Flexible.php:100-102 | the pool becomes the rejection continuation's result in the run's reading; one attempt ends and the spawns of the ping that follows are added, keeping the invariants |
| Machine.OnError | src/Manager/Flexible.php:91-97 | the pool becomes the error handler's result, and the spawns of its ping, on an unexpected end, are added to the attempts in flight, keeping the invariants |
| Machine.Step | src/Manager/Flexible.php:74-102 | `terminating` and busy-flag events apply `Terminating` and `SetBusy` to the pool and nothing else; an event is refused exactly when a promise settles with nothing in flight, a fulfilled spawn repeats a worker, or a decrement has no registration before it; otherwise the counter never undercounts, settings stay fixed, and the corrected reading keeps the counter exact; the `maxSize` bound is kept only when `minSize < maxSize`, or, in the corrected reading, when `minSize <= maxSize` |
| Machine.RunAll | src/Manager/Flexible.php:74-102 | any sequence of events keeps the state well formed and the counter at least the attempts in flight plus the unsettled ones |
| Machine.CorrectedCountsInFlight | src/Manager/Flexible.php:100-102 | with the rejection path corrected, `startingProcesses` equals the spawn attempts in flight plus the unsettled ones after any sequence of events |
| Machine.CorrectedStaysWithinMax | src/Manager/Flexible.php:121-140 | with both corrections and `minSize <= maxSize`, running plus in-flight workers, each registered worker counted once, never exceed `maxSize`, provided continuations run after the call that started them |
| Machine.AsWrittenWithinMaxWhenMinBelowMax | src/Manager/Flexible.php:123-127 | as written the `maxSize` bound still holds whenever `minSize < maxSize` |
| Machine.PingsStall | src/Manager/Flexible.php:137-139 | a pool on which ping does nothing is unchanged by any number of pings |
| Machine.SynchronousRejectionInsideCatchUp | src/Manager/Flexible.php:69-108 | with `minSize = maxSize = 2` and an empty pool, a first catch-up spawn whose promise is already rejected pings inside the loop: five committed as written, three corrected, both above `maxSize` |
| Machine.CatchUpExceedsMax | src/Manager/Flexible.php:124 | as written, `minSize = maxSize = 2` with one worker lost leads a ping to commit three workers |
| Machine.RejectedSpawnLeaks | src/Manager/Flexible.php:100-102 | as written, a rejected spawn leaves `startingProcesses` at 1 with nothing in flight and no worker, and every later ping does nothing |
| Machine.RejectedSpawnReplaced | src/Manager/Flexible.php:100-102 | corrected, the same events leave one replacement spawn in flight and the count exact |
| Machine.ScenarioGrowOnDemand | src/Manager/Flexible.php:121-140 | with `minSize 0, maxSize 2` construction spawns nothing, a ping spawns one, and after it arrives the pool has one idle worker |
| Machine.ReadyListenerSeesDoubleCount | src/Manager/Flexible.php:98-99 | with `minSize 0, maxSize 2`, a `ready` listener that makes the new worker busy and pings counts it twice and spawns nothing; the same ping after the decrement spawns one |
| Machine.PingInsideReadyWindow | src/Manager/Flexible.php:98-99 | before the decrement, a ping on a busy pool of one worker with one spawn counted commits nothing new |
| Machine.PingAfterReadyWindow | src/Manager/Flexible.php:98-99 | after the decrement, the same ping issues one spawn |
| Machine.ScenarioFixedSize | src/Manager/Flexible.php:53-62 | with `minSize = maxSize = 2` construction starts two spawns, and once both arrive a ping surfaces the idle worker without spawning |
| Machine.ScenarioReplaceDeadWorker | src/Manager/Flexible.php:91-97 | in the corrected reading, with `minSize = maxSize = 1`: an unexpected end requests termination, `terminating` removes the worker, and the next ping's one spawn restores the total, with nothing left in flight and the bound kept |
| Machine.DeadWorkerOverReplaced | src/Manager/Flexible.php:121-127 | as written, the same events end with the replacement running and a second spawn still in flight, so the committed size is above `maxSize` |

## Findings

| source | as written | input that shows it | evidently intended | confidence | as-written member | corrected member |
|---|---|---|---|---|---|---|
| src/Manager/Flexible.php:124 | the catch-up loop runs `$i` from `count(workers) + startingProcesses` while `$i <= minSize`, issuing one spawn more than the shortfall | `minSize = maxSize = 2`, both workers started, one terminates, then `ping()`: two spawns, three committed against a maximum of two | a strict `<` bound, spawning exactly up to `minSize` | high; not executed | Machine.CatchUpExceedsMax | Machine.CorrectedStaysWithinMax |
| src/Manager/Flexible.php:100-102 | a rejected spawn calls `ping()` without decrementing `startingProcesses` | `minSize = 0, maxSize = 1`, `ping()`, then the spawn is rejected: the counter stays 1 with no attempt in flight and no worker, and every later `ping()` does nothing | decrement the counter, then ping | high; not executed | Machine.RejectedSpawnLeaks | Machine.CorrectedCountsInFlight |

The as-written definitions are `Flexible.Ping` and `Flexible.SpawnFailure`.
The corrected ones are `Flexible.PingCorrected` and
`Flexible.SpawnFailureCorrected`. `Machine` uses the corrected pair under
`Build.Corrected`.

## Left out

- `message()` broadcast and `terminate()` aggregation (lines 142-158): they forward to each worker and combine promises. They do not change pool state.
- The event emitter wiring: `done` forwarded as `ready`, and `message` and `error` forwarded with their payloads. Emitting `ready` is recorded as an action. Error forwarding always happens and is not recorded.
- The React event loop and promises: each continuation is a separate event that runs after the call that started it has returned. A promise that never settles is `Pending` over the finite outcome sequence given.
- Machine.CorrectedStaysWithinMax: assumes a promise's continuation runs only after the `spawn()`, `ping()` or constructor that started it returns. A promise that settles at once runs its continuation inside `spawn()` (between lines 71 and 104) and so inside the catch-up loop of line 124 or the constructor loop. Then the bound fails even in the corrected reading (minSize = maxSize = 2 reaches 3 committed), and the as-written catch-up overshoot compounds (5 committed). Both are shown by `Machine.SynchronousRejectionInsideCatchUp`. The nested spawn also reuses the strategy under the cursor, because the outer rotation has not happened yet; the model rotates at once. `Machine.CorrectedCountsInFlight` and `Flexible.Spawn` rest on the same assumption.
- The Messenger channel, `Message` and `Worker` are not part of this model. A worker is an identity plus a busy flag, and changes to the flag arrive as `WorkerBusy` events.
- The `ProcessUnexpectedEndException` type test is a boolean on the error event.
- The parse error on line 124 beyond reading `$++` as `$i++`.
- The strategy collection is assumed to start at its first element. Option values are assumed to be integers.
- Flexible.SpawnSettle: requires `0 < startingProcesses`, because a fulfilment continuation only exists after a `spawn()` that incremented it; the source would let the counter go negative. `Flexible.SpawnSuccess` inherits this.
- Flexible.SpawnSuccess: the whole fulfilment continuation as one step, assuming no `ready` listener acts before line 99. `Machine` uses the split `SpawnRegister`/`SpawnSettle` form instead, with any events allowed in between.
- Flexible.WorkerError: the termination request is recorded, but the worker's own termination is not modelled. Whether its `terminating` event, and so its removal, comes before the handler's ping is an input (`removedFirst`). When it comes after, the ping may emit `ready` for the dying worker instead of replacing it.
- The window between registration and decrement admits any event, not only the synchronous reactions of `ready` listeners, so among runs whose continuations follow the call that started them, the invariants are proved for more orderings than the event loop can produce.
