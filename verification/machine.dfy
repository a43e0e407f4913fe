/** Runs of the manager: sequences of the events the event loop delivers, each
    handled by the continuation of src/Manager/Flexible.php that the event
    triggers. Beside the pool state a run keeps `inFlight`, the number of spawn
    attempts really outstanding, and `unsettled`, the fulfilled spawns whose
    continuation has appended the worker but not yet decremented
    `startingProcesses`, so that the counter can be compared with what it is
    meant to count. Every event is a whole transition: a promise's
    continuation runs after the call that started it has returned. */
module Machine {
  import opened Wrappers
  import opened Flexible
  import Rotation

  /** What the event loop can deliver to the manager. A fulfilled spawn is two
      events, so that a `ready` listener may act in between: any events may be
      delivered there, which includes the synchronous reactions of listeners. */
  datatype Event =
    | Pinged                                       // a caller invokes ping()
    | SpawnResolved(worker: Worker)                // a fulfilled spawn registers its worker, emits `ready`
    | SpawnSettled                                 // ... and then decrements startingProcesses
    | SpawnRejected                                // a spawn's promise is rejected
    | WorkerTerminating(id: WorkerId)              // a worker emits `terminating`
    | WorkerErrored(id: WorkerId, unexpectedEnd: bool, removedFirst: bool)  // a worker emits `error`
    | WorkerBusy(id: WorkerId, busy: bool)         // a worker's busy flag changes

  datatype Run = Run(pool: Pool, inFlight: nat, unsettled: nat)

  /** Kept in every reading of the source: the state is well formed and the
      counter never undercounts the attempts in flight plus the unsettled ones. */
  predicate Tracked(r: Run) {
    Wf(r.pool) && r.inFlight + r.unsettled <= r.pool.starting
  }

  /** The counter counts exactly the attempts in flight plus the unsettled ones. */
  predicate Exact(r: Run) {
    Tracked(r) && r.inFlight + r.unsettled == r.pool.starting
  }

  /** Running workers plus spawns in flight, each registered worker counted
      once, never exceed `maxSize`. */
  predicate WithinMax(r: Run) {
    r.pool.Committed() - r.unsettled <= r.pool.maxSize
  }

  /** A freshly constructed manager, every constructor spawn in flight. */
  function Start(options: Options, strategies: Rotation.Positive): (r: Run)
    ensures Exact(r) && r.pool.workers == [] && r.unsettled == 0
    ensures 0 <= r.pool.maxSize && r.pool.minSize <= r.pool.maxSize ==> WithinMax(r)
  {
    var p := Construct(options, strategies);
    Run(p, p.starting, 0)
  }

  /** The bound on the committed size is meant to hold: as written it can
      only be kept when `minSize` is strictly below `maxSize`, corrected
      whenever `minSize <= maxSize`. */
  predicate BoundApplies(b: Build, r: Run) {
    r.pool.minSize < r.pool.maxSize || (b == Corrected && r.pool.minSize <= r.pool.maxSize)
  }

  /** What every handler keeps from `r` to `s`. */
  predicate Keeps(b: Build, r: Run, s: Run) {
    && Tracked(s) && SameSettings(r.pool, s.pool)
    && (b == Corrected && Exact(r) ==> Exact(s))
    && (WithinMax(r) && BoundApplies(b, r) ==> WithinMax(s))
  }

  /** A caller invokes ping(). */
  function OnPing(b: Build, r: Run): (s: Run)
    requires Tracked(r)
    ensures Keeps(b, r, s)
    ensures s.pool == PingIn(b, r.pool).pool && s.unsettled == r.unsettled
    ensures s.inFlight == r.inFlight + Issued(PingIn(b, r.pool).action)
  {
    var t := PingIn(b, r.pool);
    r.(pool := t.pool, inFlight := r.inFlight + Issued(t.action))
  }

  /** A fulfilled spawn registers a fresh worker and emits `ready` for it. */
  function OnResolved(b: Build, r: Run, w: Worker): (s: Run)
    requires Tracked(r) && 0 < r.inFlight && !Present(r.pool.workers, w.id)
    ensures Keeps(b, r, s)
    ensures s.pool == SpawnRegister(r.pool, w).pool && s.pool.workers == r.pool.workers + [w]
    ensures s.inFlight + 1 == r.inFlight && s.unsettled == r.unsettled + 1
  {
    Run(SpawnRegister(r.pool, w).pool, r.inFlight - 1, r.unsettled + 1)
  }

  /** A registered spawn's continuation decrements `startingProcesses`. */
  function OnSettled(b: Build, r: Run): (s: Run)
    requires Tracked(r) && 0 < r.unsettled
    ensures Keeps(b, r, s)
    ensures s.pool == SpawnSettle(r.pool) && s.pool.workers == r.pool.workers
    ensures s.inFlight == r.inFlight && s.unsettled + 1 == r.unsettled
  {
    Run(SpawnSettle(r.pool), r.inFlight, r.unsettled - 1)
  }

  /** A spawn's promise is rejected. */
  function OnRejected(b: Build, r: Run): (s: Run)
    requires Tracked(r) && 0 < r.inFlight
    ensures Keeps(b, r, s)
    ensures s.pool.workers == r.pool.workers && s.unsettled == r.unsettled
    ensures var t := if b == AsWritten then SpawnFailure(r.pool) else SpawnFailureCorrected(r.pool);
            s.pool == t.pool && s.inFlight + 1 == r.inFlight + Issued(t.action)
  {
    var t := if b == AsWritten then SpawnFailure(r.pool) else SpawnFailureCorrected(r.pool);
    r.(pool := t.pool, inFlight := r.inFlight - 1 + Issued(t.action))
  }

  /** A worker emits `error`. */
  function OnError(b: Build, r: Run, id: WorkerId, unexpectedEnd: bool, removedFirst: bool): (s: Run)
    requires Tracked(r)
    ensures Keeps(b, r, s)
    ensures s.unsettled == r.unsettled
    ensures var x := WorkerError(b, r.pool, id, unexpectedEnd, removedFirst);
            s.pool == x.pool && s.inFlight == r.inFlight + (if unexpectedEnd then Issued(x.ping.value) else 0)
  {
    var x := WorkerError(b, r.pool, id, unexpectedEnd, removedFirst);
    r.(pool := x.pool, inFlight := r.inFlight + if x.ping.Some? then Issued(x.ping.value) else 0)
  }

  /** One event. `None` when the event cannot occur: a promise settles only
      while an attempt is in flight, a fulfilled spawn yields a new object, and
      only a registered spawn can complete its continuation. */
  function Step(b: Build, r: Run, e: Event): (s: Option<Run>)
    requires Tracked(r)
    ensures s.None? <==>
              || (e.SpawnResolved? && (r.inFlight == 0 || Present(r.pool.workers, e.worker.id)))
              || (e.SpawnSettled? && r.unsettled == 0)
              || (e.SpawnRejected? && r.inFlight == 0)
    ensures s.Some? ==> Keeps(b, r, s.value)
    ensures e.WorkerTerminating? ==> s == Some(r.(pool := Terminating(r.pool, e.id)))
    ensures e.WorkerBusy? ==> s == Some(r.(pool := SetBusy(r.pool, e.id, e.busy)))
  {
    match e
    case Pinged => Some(OnPing(b, r))
    case SpawnResolved(w) =>
      if r.inFlight == 0 || Present(r.pool.workers, w.id) then None else Some(OnResolved(b, r, w))
    case SpawnSettled =>
      if r.unsettled == 0 then None else Some(OnSettled(b, r))
    case SpawnRejected =>
      if r.inFlight == 0 then None else Some(OnRejected(b, r))
    case WorkerTerminating(id) =>
      Some(r.(pool := Terminating(r.pool, id)))
    case WorkerErrored(id, unexpectedEnd, removedFirst) =>
      Some(OnError(b, r, id, unexpectedEnd, removedFirst))
    case WorkerBusy(id, busy) =>
      Some(r.(pool := SetBusy(r.pool, id, busy)))
  }

  /** A sequence of events, stopping at the first one that cannot occur. */
  function RunAll(b: Build, r: Run, events: seq<Event>): (s: Option<Run>)
    requires Tracked(r)
    ensures s.Some? ==> Tracked(s.value) && SameSettings(r.pool, s.value.pool)
    decreases |events|
  {
    if |events| == 0 then Some(r)
    else
      match Step(b, r, events[0])
      case None => None
      case Some(r') => RunAll(b, r', events[1..])
  }

  /** Running a first event and then the rest is running the rest from the
      state the first event leads to. */
  lemma RunAllCons(b: Build, r: Run, e: Event, events: seq<Event>)
    requires Tracked(r) && Step(b, r, e).Some?
    ensures RunAll(b, r, [e] + events) == RunAll(b, Step(b, r, e).value, events)
  {
    assert ([e] + events)[0] == e;
    assert ([e] + events)[1..] == events;
  }

  /** With the rejection path corrected, `startingProcesses` counts exactly
      the spawn attempts in flight, whatever sequence of events arrives, each
      event a whole transition as for `CorrectedStaysWithinMax`. */
  lemma {:induction false} CorrectedCountsInFlight(r: Run, events: seq<Event>)
    requires Exact(r)
    ensures RunAll(Corrected, r, events).Some? ==> Exact(RunAll(Corrected, r, events).value)
    decreases |events|
  {
    if |events| > 0 {
      match Step(Corrected, r, events[0])
      case None =>
      case Some(r') => CorrectedCountsInFlight(r', events[1..]);
    }
  }

  /** With both corrections and `minSize <= maxSize`, the committed size never
      exceeds `maxSize`, whatever sequence of events arrives. Each event is a
      whole transition: a promise's continuation is taken to run only after
      the `spawn()`, `ping()` or constructor that started it has returned.
      `SynchronousRejectionInsideCatchUp` shows that the bound fails when a
      rejection runs inside the catch-up loop. */
  lemma {:induction false} CorrectedStaysWithinMax(r: Run, events: seq<Event>)
    requires Tracked(r) && WithinMax(r) && r.pool.minSize <= r.pool.maxSize
    ensures RunAll(Corrected, r, events).Some? ==> WithinMax(RunAll(Corrected, r, events).value)
    decreases |events|
  {
    if |events| > 0 {
      match Step(Corrected, r, events[0])
      case None =>
      case Some(r') => CorrectedStaysWithinMax(r', events[1..]);
    }
  }

  /** As written, the bound still holds when `minSize` is strictly below
      `maxSize`: the one surplus catch-up spawn still fits. */
  lemma {:induction false} AsWrittenWithinMaxWhenMinBelowMax(r: Run, events: seq<Event>)
    requires Tracked(r) && WithinMax(r) && r.pool.minSize < r.pool.maxSize
    ensures RunAll(AsWritten, r, events).Some? ==> WithinMax(RunAll(AsWritten, r, events).value)
    decreases |events|
  {
    if |events| > 0 {
      match Step(AsWritten, r, events[0])
      case None =>
      case Some(r') => AsWrittenWithinMaxWhenMinBelowMax(r', events[1..]);
    }
  }

  /** `k` calls of ping() in a row. */
  function Pings(k: nat): (es: seq<Event>)
    ensures |es| == k && forall i :: 0 <= i < k ==> es[i] == Pinged
  {
    seq(k, _ => Pinged)
  }

  /** A pool on which ping() does nothing stays as it is however often it is
      pinged. */
  lemma {:induction false} PingsStall(b: Build, r: Run, k: nat)
    requires Tracked(r) && PingIn(b, r.pool).action == NoOp
    ensures RunAll(b, r, Pings(k)) == Some(r)
    decreases k
  {
    if k > 0 {
      assert Step(b, r, Pinged) == Some(r);
      assert Pings(k)[1..] == Pings(k - 1);
      PingsStall(b, r, k - 1);
    }
  }

  // ------------------------------------------------------------------ findings

  /** The inclusive catch-up bound overshoots: with minSize = maxSize = 2, two
      workers started and one of them gone, a ping leaves three workers
      committed against a maximum of two. */
  lemma CatchUpExceedsMax(n: Rotation.Positive, a: WorkerId, c: WorkerId)
    requires a != c
    ensures var r := Start(Options(Some(2), Some(2)), n);
            var s := RunAll(AsWritten, r, [SpawnResolved(Worker(a, false)), SpawnSettled,
                                           SpawnResolved(Worker(c, false)), SpawnSettled,
                                           WorkerTerminating(a), Pinged]);
            && WithinMax(r)
            && s.Some? && s.value.pool.Committed() == 3 && s.value.unsettled == 0 && !WithinMax(s.value)
  {
    var b := AsWritten;
    var e1, e2, e3, e4, e5, e6 := SpawnResolved(Worker(a, false)), SpawnSettled,
                                  SpawnResolved(Worker(c, false)), SpawnSettled,
                                  WorkerTerminating(a), Pinged;
    var r := Start(Options(Some(2), Some(2)), n);
    assert r.pool.starting == 2 && r.inFlight == 2;
    var r1 := Step(b, r, e1).value;
    assert r1.pool.workers == [Worker(a, false)] && r1.inFlight == 1 && r1.unsettled == 1;
    var r2 := Step(b, r1, e2).value;
    assert r2.pool.starting == 1 && r2.unsettled == 0;
    var r3 := Step(b, r2, e3).value;
    assert r3.pool.workers == [Worker(a, false), Worker(c, false)] && r3.unsettled == 1;
    var r4 := Step(b, r3, e4).value;
    assert r4.pool.starting == 0 && r4.unsettled == 0;
    assert IndexOf(r4.pool.workers, a) == Some(0);
    var r5 := Step(b, r4, e5).value;
    assert r5.pool.workers == [Worker(c, false)] && r5.pool.starting == 0;
    var r6 := Step(b, r5, e6).value;
    assert r6.pool.Committed() == 3;
    assert RunAll(b, r6, []) == Some(r6);
    RunAllCons(b, r5, e6, []);
    RunAllCons(b, r4, e5, [e6]);
    RunAllCons(b, r3, e4, [e5, e6]);
    RunAllCons(b, r2, e3, [e4, e5, e6]);
    RunAllCons(b, r1, e2, [e3, e4, e5, e6]);
    RunAllCons(b, r, e1, [e2, e3, e4, e5, e6]);
  }

  /** A promise that is already rejected when `spawn()` registers its
      handlers runs the rejection continuation inside `spawn()`, after the
      increment and before the rotation, and so inside the catch-up loop of
      the constructor or of `ping()`. With minSize = maxSize = 2 and an empty
      pool, the first catch-up spawn's rejection pings at once: as written the
      nested ping issues two spawns and the loop then issues its remaining
      two, five committed in all; corrected, the nested ping issues two and
      the loop's second iteration a third. Both exceed maxSize. */
  lemma SynchronousRejectionInsideCatchUp(n: Rotation.Positive)
    ensures var p := Pool([], 0, 0, n, 2, 2);
            && Ping(p).action == SpawnedK(3) && PingCorrected(p).action == SpawnedK(2)
            && SpawnFailure(SpawnStart(p)).action == SpawnedK(2)
            && SpawnStartN(SpawnFailure(SpawnStart(p)).pool, 2).Committed() == 5
            && SpawnFailureCorrected(SpawnStart(p)).action == SpawnedK(2)
            && SpawnStart(SpawnFailureCorrected(SpawnStart(p)).pool).Committed() == 3
  {
    var p := Pool([], 0, 0, n, 2, 2);
    assert p.Committed() == 0 && SpawnStart(p).Committed() == 1;
    var t := SpawnFailure(SpawnStart(p));
    assert t.pool.Committed() == 3;
    var u := SpawnFailureCorrected(SpawnStart(p));
    assert u.pool.Committed() == 2;
  }

  /** The rejection path leaks a count: with minSize = 0 and maxSize = 1, one
      ping starts a spawn, its rejection leaves `startingProcesses` at 1 with
      nothing in flight and no worker, and from then on every ping does nothing. */
  lemma RejectedSpawnLeaks(n: Rotation.Positive, k: nat)
    ensures var s := RunAll(AsWritten, Start(Options(Some(0), Some(1)), n), [Pinged, SpawnRejected]);
            && s.Some?
            && s.value.pool.workers == [] && s.value.pool.starting == 1
            && s.value.inFlight == 0 && s.value.unsettled == 0
            && RunAll(AsWritten, s.value, Pings(k)) == s
  {
    var b := AsWritten;
    var r := Start(Options(Some(0), Some(1)), n);
    assert r.pool.starting == 0 && r.pool.workers == [];
    var r1 := Step(b, r, Pinged).value;
    assert r1.pool.starting == 1 && r1.inFlight == 1;
    var r2 := Step(b, r1, SpawnRejected).value;
    assert r2.pool.starting == 1 && r2.inFlight == 0;
    assert RunAll(b, r2, []) == Some(r2);
    RunAllCons(b, r1, SpawnRejected, []);
    RunAllCons(b, r, Pinged, [SpawnRejected]);
    PingsStall(b, r2, k);
  }

  /** With the rejection path corrected, the same events leave a replacement
      spawn in flight and the count exact. */
  lemma RejectedSpawnReplaced(n: Rotation.Positive)
    ensures var s := RunAll(Corrected, Start(Options(Some(0), Some(1)), n), [Pinged, SpawnRejected]);
            s.Some? && s.value.pool.starting == 1 && s.value.inFlight == 1
  {
    var b := Corrected;
    var r := Start(Options(Some(0), Some(1)), n);
    assert r.pool.starting == 0 && r.pool.workers == [];
    var r1 := Step(b, r, Pinged).value;
    assert r1.pool.workers == [] && r1.pool.starting == 1 && r1.inFlight == 1;
    var r2 := RejectionReplaced(r1);
    assert RunAll(b, r2, []) == Some(r2);
    RunAllCons(b, r1, SpawnRejected, []);
    RunAllCons(b, r, Pinged, [SpawnRejected]);
  }

  /** The corrected rejection step on a pool with one attempt in flight and
      room for one worker: the ping that follows starts a replacement. */
  lemma RejectionReplaced(r1: Run) returns (r2: Run)
    requires Tracked(r1) && r1.pool.workers == [] && r1.pool.starting == 1 && r1.inFlight == 1
    requires r1.pool.minSize == 0 && r1.pool.maxSize == 1
    ensures Step(Corrected, r1, SpawnRejected) == Some(r2)
    ensures r2.pool.starting == 1 && r2.inFlight == 1
  {
    assert AllBusy(r1.pool.workers);
    var t := SpawnFailureCorrected(r1.pool);
    assert t.action == SpawnedOne && t.pool.starting == 1;
    r2 := OnRejected(Corrected, r1);
  }

  // ----------------------------------------------------------------- scenarios

  /** minSize 0, maxSize 2: construction spawns nothing, one ping spawns one
      worker, and once it arrives it is the single idle worker. */
  lemma ScenarioGrowOnDemand(n: Rotation.Positive, a: WorkerId)
    ensures var r := Start(Options(Some(0), Some(2)), n);
            && r.pool.starting == 0
            && Ping(r.pool).action == SpawnedOne
            && var s := RunAll(AsWritten, r, [Pinged, SpawnResolved(Worker(a, false)), SpawnSettled]);
               && s.Some? && GetTotal(s.value.pool) == 1 && s.value.pool.starting == 0
               && BusyCount(s.value.pool.workers) == 0 && IdleCount(s.value.pool.workers) == 1
  {
    var r := Start(Options(Some(0), Some(2)), n);
    assert r.pool.starting == 0 && r.pool.workers == [] && AllBusy(r.pool.workers);
    assert Ping(r.pool).action == SpawnedOne;
    var r3 := GrownByOne(a, r);
    assert r3.pool.workers[..0] == [];
  }

  /** A ping on an empty pool with room below `maxSize`, then the spawn's
      registration and decrement: one idle worker and nothing in flight. */
  lemma GrownByOne(a: WorkerId, r: Run) returns (r3: Run)
    requires Exact(r) && r.pool.workers == [] && r.pool.starting == 0 && r.unsettled == 0
    requires r.pool.minSize == 0 && r.pool.maxSize == 2
    ensures RunAll(AsWritten, r, [Pinged, SpawnResolved(Worker(a, false)), SpawnSettled]) == Some(r3)
    ensures r3.pool.workers == [Worker(a, false)] && r3.pool.starting == 0
  {
    var b := AsWritten;
    var e2 := SpawnResolved(Worker(a, false));
    assert AllBusy(r.pool.workers);
    var r1 := OnPing(b, r);
    assert Step(b, r, Pinged) == Some(r1);
    assert r1.pool.workers == [] && r1.pool.starting == 1 && r1.inFlight == 1;
    var r2 := OnResolved(b, r1, e2.worker);
    assert Step(b, r1, e2) == Some(r2);
    assert r2.pool.workers == [Worker(a, false)] && r2.pool.starting == 1 && r2.unsettled == 1;
    r3 := OnSettled(b, r2);
    assert Step(b, r2, SpawnSettled) == Some(r3);
    assert r3.pool.workers == [Worker(a, false)] && r3.pool.starting == 0;
    assert RunAll(b, r3, []) == Some(r3);
    RunAllCons(b, r2, SpawnSettled, []);
    RunAllCons(b, r1, e2, [SpawnSettled]);
    RunAllCons(b, r, Pinged, [e2, SpawnSettled]);
  }

  /** A `ready` listener runs before the fulfilled spawn is taken out of
      `startingProcesses`. With minSize 0 and maxSize 2, if the listener makes
      the new worker busy and pings, the ping counts that worker twice, finds
      the pool at its maximum and spawns nothing; the same ping after the
      decrement spawns one. */
  lemma ReadyListenerSeesDoubleCount(n: Rotation.Positive, a: WorkerId)
    ensures var r := Start(Options(Some(0), Some(2)), n);
            var inside := RunAll(AsWritten, r, [Pinged, SpawnResolved(Worker(a, false)),
                                                WorkerBusy(a, true), Pinged]);
            var after := RunAll(AsWritten, r, [Pinged, SpawnResolved(Worker(a, false)), SpawnSettled,
                                               WorkerBusy(a, true), Pinged]);
            && inside.Some? && inside.value.pool.Committed() == 2 && inside.value.inFlight == 0
            && after.Some? && after.value.pool.Committed() == 2 && after.value.inFlight == 1
  {
    var e2, e3 := SpawnResolved(Worker(a, false)), WorkerBusy(a, true);
    assert [Pinged, e2, e3, Pinged] == [Pinged, e2] + [e3, Pinged];
    assert [Pinged, e2, SpawnSettled, e3, Pinged] == [Pinged, e2] + [SpawnSettled, e3, Pinged];
    var r2 := OneWorkerRegistered(n, a, [e3, Pinged]);
    PingInsideReadyWindow(n, a, r2);
    var r2' := OneWorkerRegistered(n, a, [SpawnSettled, e3, Pinged]);
    PingAfterReadyWindow(n, a, r2');
  }

  /** The common prefix: one ping, then its spawn registers worker `a`. */
  lemma OneWorkerRegistered(n: Rotation.Positive, a: WorkerId, es: seq<Event>) returns (r2: Run)
    ensures Tracked(r2)
    ensures r2.pool.workers == [Worker(a, false)] && r2.pool.starting == 1
    ensures r2.inFlight == 0 && r2.unsettled == 1 && r2.pool.maxSize == 2 && r2.pool.minSize == 0
    ensures RunAll(AsWritten, Start(Options(Some(0), Some(2)), n), [Pinged, SpawnResolved(Worker(a, false))] + es)
            == RunAll(AsWritten, r2, es)
  {
    var b := AsWritten;
    var e2 := SpawnResolved(Worker(a, false));
    var r := Start(Options(Some(0), Some(2)), n);
    assert r.pool.starting == 0 && r.pool.workers == [] && r.unsettled == 0;
    var r1 := Step(b, r, Pinged).value;
    assert r1.pool.starting == 1 && r1.inFlight == 1 && r1.pool.workers == [];
    r2 := Step(b, r1, e2).value;
    assert r2.pool.workers == [Worker(a, false)] && r2.pool.starting == 1;
    assert [Pinged, e2] + es == [Pinged] + ([e2] + es);
    RunAllCons(b, r, Pinged, [e2] + es);
    RunAllCons(b, r1, e2, es);
  }

  /** Inside the window the listener's ping spawns nothing. */
  lemma PingInsideReadyWindow(n: Rotation.Positive, a: WorkerId, r2: Run)
    requires Tracked(r2)
    requires r2.pool.workers == [Worker(a, false)] && r2.pool.starting == 1
    requires r2.inFlight == 0 && r2.unsettled == 1 && r2.pool.maxSize == 2 && r2.pool.minSize == 0
    ensures var s := RunAll(AsWritten, r2, [WorkerBusy(a, true), Pinged]);
            s.Some? && s.value.pool.Committed() == 2 && s.value.inFlight == 0
  {
    var b := AsWritten;
    var e3, e4 := WorkerBusy(a, true), Pinged;
    var i3 := Step(b, r2, e3).value;
    assert i3.pool.workers == [Worker(a, true)] && i3.pool.starting == 1;
    var i4 := Step(b, i3, e4).value;
    assert i4 == i3;
    assert RunAll(b, i4, []) == Some(i4);
    RunAllCons(b, i3, e4, []);
    RunAllCons(b, r2, e3, [e4]);
  }

  /** After the decrement the same ping spawns one worker. */
  lemma PingAfterReadyWindow(n: Rotation.Positive, a: WorkerId, r2: Run)
    requires Tracked(r2)
    requires r2.pool.workers == [Worker(a, false)] && r2.pool.starting == 1
    requires r2.inFlight == 0 && r2.unsettled == 1 && r2.pool.maxSize == 2 && r2.pool.minSize == 0
    ensures var s := RunAll(AsWritten, r2, [SpawnSettled, WorkerBusy(a, true), Pinged]);
            s.Some? && s.value.pool.Committed() == 2 && s.value.inFlight == 1
  {
    var b := AsWritten;
    var e3, e4 := WorkerBusy(a, true), Pinged;
    var a3 := Step(b, r2, SpawnSettled).value;
    assert a3.pool.workers == [Worker(a, false)] && a3.pool.starting == 0;
    var a4 := Step(b, a3, e3).value;
    assert a4.pool.workers == [Worker(a, true)] && a4.pool.starting == 0;
    var a5 := Step(b, a4, e4).value;
    assert a5.pool.starting == 1 && a5.inFlight == 1;
    assert RunAll(b, a5, []) == Some(a5);
    RunAllCons(b, a4, e4, []);
    RunAllCons(b, a3, e3, [e4]);
    RunAllCons(b, r2, SpawnSettled, [e3, e4]);
  }

  /** minSize = maxSize = 2: construction starts two spawns; once both workers
      are in, a ping surfaces the first idle one and spawns nothing. */
  lemma ScenarioFixedSize(n: Rotation.Positive, a: WorkerId, c: WorkerId)
    requires a != c
    ensures var r := Start(Options(Some(2), Some(2)), n);
            && r.pool.starting == 2
            && var s := RunAll(AsWritten, r, [SpawnResolved(Worker(a, true)), SpawnSettled,
                                              SpawnResolved(Worker(c, false)), SpawnSettled]);
               && s.Some? && GetTotal(s.value.pool) == 2
               && Ping(s.value.pool) == Transition(s.value.pool, Ready(Worker(c, false)))
  {
    var b := AsWritten;
    var e1, e2, e3, e4 := SpawnResolved(Worker(a, true)), SpawnSettled, SpawnResolved(Worker(c, false)), SpawnSettled;
    var r := Start(Options(Some(2), Some(2)), n);
    assert r.pool.starting == 2 && r.inFlight == 2 && r.pool.workers == [];
    var r1 := Step(b, r, e1).value;
    assert r1.pool.workers == [Worker(a, true)] && r1.inFlight == 1 && r1.unsettled == 1;
    var r2 := Step(b, r1, e2).value;
    assert r2.pool.starting == 1 && r2.unsettled == 0;
    var r3 := Step(b, r2, e3).value;
    assert r3.pool.workers == [Worker(a, true), Worker(c, false)] && r3.unsettled == 1;
    var r4 := Step(b, r3, e4).value;
    assert r4.pool.workers == [Worker(a, true), Worker(c, false)] && r4.pool.starting == 0;
    assert r4.pool.workers[1..] == [Worker(c, false)];
    assert FirstIdle(r4.pool.workers) == Some(1);
    assert RunAll(b, r4, []) == Some(r4);
    RunAllCons(b, r3, e4, []);
    RunAllCons(b, r2, e3, [e4]);
    RunAllCons(b, r1, e2, [e3, e4]);
    RunAllCons(b, r, e1, [e2, e3, e4]);
  }

  /** minSize = maxSize = 1 with the corrections: the worker's process ends
      unexpectedly while it is busy, the worker is asked to terminate, its
      `terminating` event removes it after the handler's ping, and the next
      ping's one spawn restores the total with nothing left in flight. */
  lemma ScenarioReplaceDeadWorker(n: Rotation.Positive, a: WorkerId, c: WorkerId)
    requires a != c
    ensures var r := Start(Options(Some(1), Some(1)), n);
            var s := RunAll(Corrected, r, [SpawnResolved(Worker(a, true)), SpawnSettled]);
            && s.Some? && GetTotal(s.value.pool) == 1
            && WorkerError(Corrected, s.value.pool, a, true, false).terminate == Some(a)
            && var u := RunAll(Corrected, s.value, [WorkerErrored(a, true, false), WorkerTerminating(a), Pinged,
                                                    SpawnResolved(Worker(c, false)), SpawnSettled]);
               && u.Some? && GetTotal(u.value.pool) == 1 && u.value.pool.workers == [Worker(c, false)]
               && u.value.pool.starting == 0 && u.value.inFlight == 0 && WithinMax(u.value)
  {
    var r1 := OneBusyWorkerRunning(Corrected, n, a);
    DeadWorkerReplaced(Corrected, n, a, c, r1);
  }

  /** The same events as written: the ping after the removal issues two
      spawns, so once the replacement is in, a second one is still in flight
      and the committed size is above maxSize. */
  lemma DeadWorkerOverReplaced(n: Rotation.Positive, a: WorkerId, c: WorkerId)
    requires a != c
    ensures var r := Start(Options(Some(1), Some(1)), n);
            var s := RunAll(AsWritten, r, [SpawnResolved(Worker(a, true)), SpawnSettled]);
            && s.Some?
            && var u := RunAll(AsWritten, s.value, [WorkerErrored(a, true, false), WorkerTerminating(a), Pinged,
                                                    SpawnResolved(Worker(c, false)), SpawnSettled]);
               && u.Some? && GetTotal(u.value.pool) == 1 && u.value.pool.workers == [Worker(c, false)]
               && u.value.pool.starting == 1 && u.value.inFlight == 1 && !WithinMax(u.value)
  {
    var r1 := OneBusyWorkerRunning(AsWritten, n, a);
    DeadWorkerReplaced(AsWritten, n, a, c, r1);
  }

  /** The setup: the one constructor spawn registers busy worker `a` and settles. */
  lemma OneBusyWorkerRunning(b: Build, n: Rotation.Positive, a: WorkerId) returns (r1: Run)
    ensures RunAll(b, Start(Options(Some(1), Some(1)), n), [SpawnResolved(Worker(a, true)), SpawnSettled])
            == Some(r1)
    ensures Exact(r1) && r1.pool.workers == [Worker(a, true)] && r1.pool.starting == 0 && r1.unsettled == 0
    ensures r1.pool.minSize == 1 && r1.pool.maxSize == 1
  {
    var e0 := SpawnResolved(Worker(a, true));
    var r := Start(Options(Some(1), Some(1)), n);
    assert r.pool.starting == 1 && r.inFlight == 1 && r.pool.workers == [];
    var r0 := Step(b, r, e0).value;
    assert r0.pool.workers == [Worker(a, true)] && r0.pool.starting == 1 && r0.unsettled == 1;
    r1 := Step(b, r0, SpawnSettled).value;
    assert r1.pool.workers == [Worker(a, true)] && r1.pool.starting == 0 && r1.unsettled == 0;
    assert RunAll(b, r1, []) == Some(r1);
    RunAllCons(b, r0, SpawnSettled, []);
    RunAllCons(b, r, e0, [SpawnSettled]);
  }

  /** The dying worker's ping finds the pool full; its removal and the next
      ping let a replacement `c` take its place. That ping spawns one worker
      corrected and two as written. */
  lemma DeadWorkerReplaced(b: Build, n: Rotation.Positive, a: WorkerId, c: WorkerId, r1: Run)
    requires a != c
    requires Exact(r1) && r1.pool.workers == [Worker(a, true)] && r1.pool.starting == 0 && r1.unsettled == 0
    requires r1.pool.minSize == 1 && r1.pool.maxSize == 1
    ensures var u := RunAll(b, r1, [WorkerErrored(a, true, false), WorkerTerminating(a), Pinged,
                                    SpawnResolved(Worker(c, false)), SpawnSettled]);
            && u.Some? && u.value.pool.workers == [Worker(c, false)] && u.value.unsettled == 0
            && var extra := if b == AsWritten then 1 else 0;
               u.value.pool.starting == extra && u.value.inFlight == extra
  {
    var e1, e2, e3, e4, e5 := WorkerErrored(a, true, false), WorkerTerminating(a), Pinged,
                              SpawnResolved(Worker(c, false)), SpawnSettled;
    var extra := if b == AsWritten then 1 else 0;
    var r3, r4 := DeadWorkerRemovedThenPinged(b, a, r1);
    var r5 := OnResolved(b, r4, Worker(c, false));
    assert Step(b, r4, e4) == Some(r5);
    assert r5.pool.workers == [Worker(c, false)] && r5.unsettled == 1 && r5.inFlight == extra;
    var r6 := OnSettled(b, r5);
    assert Step(b, r5, e5) == Some(r6);
    assert r6.pool.workers == [Worker(c, false)] && r6.pool.starting == extra;
    assert RunAll(b, r6, []) == Some(r6);
    RunAllCons(b, r5, e5, []);
    RunAllCons(b, r4, e4, [e5]);
    RunAllCons(b, r3, e3, [e4, e5]);
    RunAllCons(b, r1, e2, [e3, e4, e5]);
    RunAllCons(b, r1, e1, [e2, e3, e4, e5]);
  }

  /** The first half: the handler's ping finds the pool full, the removal
      empties it, and the next ping spawns up to the minimum, one more as
      written. */
  lemma DeadWorkerRemovedThenPinged(b: Build, a: WorkerId, r1: Run) returns (r3: Run, r4: Run)
    requires Exact(r1) && r1.pool.workers == [Worker(a, true)] && r1.pool.starting == 0 && r1.unsettled == 0
    requires r1.pool.minSize == 1 && r1.pool.maxSize == 1
    ensures Step(b, r1, WorkerErrored(a, true, false)) == Some(r1)
    ensures Step(b, r1, WorkerTerminating(a)) == Some(r3) && Tracked(r3)
    ensures Step(b, r3, Pinged) == Some(r4) && Tracked(r4)
    ensures var extra := if b == AsWritten then 1 else 0;
            && r4.pool.workers == [] && r4.pool.starting == 1 + extra && r4.inFlight == 1 + extra
            && r4.unsettled == 0 && r4.pool.minSize == 1 && r4.pool.maxSize == 1
  {
    assert AllBusy(r1.pool.workers);
    assert Step(b, r1, WorkerErrored(a, true, false)).value == r1;
    assert IndexOf(r1.pool.workers, a) == Some(0);
    r3 := Step(b, r1, WorkerTerminating(a)).value;
    assert r3.pool.workers == [] && r3.pool.starting == 0;
    r4 := Step(b, r3, Pinged).value;
  }
}
