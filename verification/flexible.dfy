/** The flexible pool manager (src/Manager/Flexible.php) as pure transitions
    over an abstract pool state. Each asynchronous continuation of the source
    (a spawn starting, a spawn resolving or rejecting, a worker terminating,
    a worker reporting an error) is a separate function from the state before
    to the state after; `ping` also returns the action it took. */
module Flexible {
  import opened Wrappers
  import Rotation
  import Retry

  /** The option defaults (src/Manager/Flexible.php:43-46). */
  const DefaultMinSize: int := 0
  const DefaultMaxSize: int := 4

  /** The identity of a worker object; the source compares workers with `===`. */
  type WorkerId = nat

  /** A registered worker as the manager sees it. The busy flag belongs to the
      worker itself and is an input to the model. */
  datatype Worker = Worker(id: WorkerId, busy: bool)

  /** The manager's state: running workers in registration order, the spawns
      still in flight (`startingProcesses`), the cursor into the strategies,
      and the configured bounds. */
  datatype Pool = Pool(
    workers: seq<Worker>,
    starting: nat,
    cursor: nat,
    strategies: Rotation.Positive,
    minSize: int,
    maxSize: int)
  {
    /** Running workers plus spawns in flight: what the scaling policy counts. */
    function Committed(): nat {
      |workers| + starting
    }
  }

  /** What a `ping` did: a batch of catch-up spawns, a `ready` emitted for an
      idle worker, one incremental spawn, or nothing. */
  datatype Action = SpawnedK(k: nat) | Ready(worker: Worker) | SpawnedOne | NoOp

  datatype Transition = Transition(pool: Pool, action: Action)

  /** The caller's options; an absent key takes its default (array_merge, line 57). */
  datatype Options = Options(minSize: Option<int>, maxSize: Option<int>)

  /** Which reading of the source a transition follows: the code as written,
      or with the two defects listed in the README corrected. */
  datatype Build = AsWritten | Corrected

  /** The number of spawns an action issued. */
  function Issued(a: Action): nat {
    match a
    case SpawnedK(k) => k
    case SpawnedOne => 1
    case _ => 0
  }

  predicate Present(ws: seq<Worker>, id: WorkerId) {
    exists k :: 0 <= k < |ws| && ws[k].id == id
  }

  /** No worker object is registered twice. */
  predicate Distinct(ws: seq<Worker>) {
    forall i, j :: 0 <= i < j < |ws| ==> ws[i].id != ws[j].id
  }

  predicate AllBusy(ws: seq<Worker>) {
    forall k :: 0 <= k < |ws| ==> ws[k].busy
  }

  /** The state invariant every transition keeps. */
  predicate Wf(p: Pool) {
    p.cursor < p.strategies && Distinct(p.workers)
  }

  /** The bounds and the strategies are fixed for the manager's lifetime. */
  predicate SameSettings(p: Pool, q: Pool) {
    q.strategies == p.strategies && q.minSize == p.minSize && q.maxSize == p.maxSize
  }

  // ---------------------------------------------------------------- spawning

  /** The synchronous part of `spawn()`: one more spawn in flight, and the
      strategy cursor rotated (lines 71, 104-107). */
  function SpawnStart(p: Pool): (q: Pool)
    ensures q.workers == p.workers && SameSettings(p, q)
    ensures q.Committed() == p.Committed() + 1
    ensures q.cursor < q.strategies
    ensures p.cursor < p.strategies ==> q.cursor == (p.cursor + 1) % p.strategies
  {
    p.(starting := p.starting + 1, cursor := Rotation.Advance(p.cursor, p.strategies))
  }

  /** `k` consecutive calls of `spawn()`. */
  function SpawnStartN(p: Pool, k: nat): (q: Pool)
    ensures q.workers == p.workers && SameSettings(p, q)
    ensures q.starting == p.starting + k
    ensures q.cursor == Rotation.AdvanceN(p.cursor, p.strategies, k)
    decreases k
  {
    if k == 0 then p else SpawnStartN(SpawnStart(p), k - 1)
  }

  /** The constructor: merge the options with the defaults, then call
      `spawn()` once per unit of `minSize` (lines 53-62). The strategy
      collection is taken to start at its first element. */
  function Construct(options: Options, strategies: Rotation.Positive): (p: Pool)
    ensures p.workers == [] && p.strategies == strategies
    ensures p.minSize == (if options.minSize.Some? then options.minSize.value else DefaultMinSize)
    ensures p.maxSize == (if options.maxSize.Some? then options.maxSize.value else DefaultMaxSize)
    ensures p.starting == (if p.minSize > 0 then p.minSize else 0)
    ensures p.cursor == p.starting % strategies
    ensures Wf(p)
  {
    var minSize := options.minSize.GetOr(DefaultMinSize);
    var maxSize := options.maxSize.GetOr(DefaultMaxSize);
    var spawns: nat := if minSize > 0 then minSize else 0;
    Rotation.AdvanceNIsModular(0, strategies, spawns);
    SpawnStartN(Pool([], 0, 0, strategies, minSize, maxSize), spawns)
  }

  /** The fulfilment continuation of `spawn()` up to line 98: the new worker
      is appended and `ready` is emitted for it while `startingProcesses` still
      counts the spawn. A `ready` listener runs inside this window and sees
      the new worker counted twice in the committed size. */
  function SpawnRegister(p: Pool, w: Worker): (t: Transition)
    ensures t.action == Ready(w)
    ensures t.pool.workers == p.workers + [w] && t.pool.starting == p.starting
    ensures t.pool.Committed() == p.Committed() + 1
    ensures t.pool.cursor == p.cursor && SameSettings(p, t.pool)
    ensures Wf(p) && !Present(p.workers, w.id) ==> Wf(t.pool)
  {
    Transition(p.(workers := p.workers + [w]), Ready(w))
  }

  /** The last statement of the fulfilment continuation (line 99): the spawn
      is no longer counted as in flight. Every such continuation follows one
      `spawn()`, hence `0 < starting`. */
  function SpawnSettle(p: Pool): (q: Pool)
    requires 0 < p.starting
    ensures q.workers == p.workers && q.starting + 1 == p.starting
    ensures q.Committed() + 1 == p.Committed()
    ensures q.cursor == p.cursor && SameSettings(p, q)
    ensures Wf(p) ==> Wf(q)
  {
    p.(starting := p.starting - 1)
  }

  /** The whole fulfilment continuation (lines 74-99) when no `ready`
      listener acts in between: the new worker is appended, `ready` is
      emitted for it and one spawn is no longer in flight. */
  function SpawnSuccess(p: Pool, w: Worker): (t: Transition)
    requires 0 < p.starting
    ensures t.action == Ready(w)
    ensures t.pool.workers == p.workers + [w]
    ensures t.pool.starting == p.starting - 1
    ensures t.pool.Committed() == p.Committed()
    ensures t.pool.cursor == p.cursor && SameSettings(p, t.pool)
    ensures Wf(p) && !Present(p.workers, w.id) ==> Wf(t.pool)
  {
    var t := SpawnRegister(p, w);
    Transition(SpawnSettle(t.pool), t.action)
  }

  // ------------------------------------------------------------- termination

  /** The index of the first entry that is the given worker. */
  function IndexOf(ws: seq<Worker>, id: WorkerId): (r: Option<nat>)
    ensures r.None? <==> !Present(ws, id)
    ensures r.Some? ==>
              && r.value < |ws| && ws[r.value].id == id
              && forall k :: 0 <= k < r.value ==> ws[k].id != id
  {
    if |ws| == 0 then None
    else if ws[0].id == id then Some(0)
    else
      match IndexOf(ws[1..], id)
      case None => None
      case Some(i) => Some(i + 1)
  }

  /** The `terminating` handler's loop: drop the first entry identical to the
      worker and stop (lines 81-86). */
  function RemoveFirst(ws: seq<Worker>, id: WorkerId): (r: seq<Worker>)
    ensures !Present(ws, id) ==> r == ws
    ensures Present(ws, id) ==> |r| == |ws| - 1
  {
    if |ws| == 0 then []
    else if ws[0].id == id then ws[1..]
    else [ws[0]] + RemoveFirst(ws[1..], id)
  }

  /** Removal takes out exactly the first matching entry and keeps every other
      entry in its relative order. */
  lemma {:induction false} RemoveFirstSplices(ws: seq<Worker>, id: WorkerId, i: nat)
    requires IndexOf(ws, id) == Some(i)
    ensures RemoveFirst(ws, id) == ws[..i] + ws[i + 1..]
    decreases |ws|
  {
    if i > 0 {
      RemoveFirstSplices(ws[1..], id, i - 1);
      assert ws[..i] == [ws[0]] + ws[1..][..i - 1];
      assert ws[i + 1..] == ws[1..][i..];
    }
  }

  /** On a registry without duplicates the removed worker is gone afterwards and
      the registry still has no duplicates. */
  lemma RemoveFirstOfDistinct(ws: seq<Worker>, id: WorkerId)
    requires Distinct(ws)
    ensures Distinct(RemoveFirst(ws, id))
    ensures !Present(RemoveFirst(ws, id), id)
  {
    match IndexOf(ws, id)
    case None =>
    case Some(i) =>
      RemoveFirstSplices(ws, id, i);
      var r := ws[..i] + ws[i + 1..];
      assert forall k :: 0 <= k < |r| ==> r[k] == ws[if k < i then k else k + 1];
      forall a, c | 0 <= a < c < |r|
        ensures r[a].id != r[c].id
      {
        var a', c' := (if a < i then a else a + 1), (if c < i then c else c + 1);
        assert a' < c' && r[a] == ws[a'] && r[c] == ws[c'];
      }
      forall k | 0 <= k < |r|
        ensures r[k].id != id
      {
        if k < i {
          assert r[k] == ws[k];
        } else {
          assert r[k] == ws[k + 1] && ws[i].id == id;
        }
      }
  }

  /** The `terminating` continuation (lines 80-87). */
  function Terminating(p: Pool, id: WorkerId): (q: Pool)
    ensures q.starting == p.starting && q.cursor == p.cursor && SameSettings(p, q)
    ensures !Present(p.workers, id) ==> q == p
    ensures IndexOf(p.workers, id).Some? ==>
              var i := IndexOf(p.workers, id).value;
              q.workers == p.workers[..i] + p.workers[i + 1..]
    ensures Wf(p) ==> Wf(q) && !Present(q.workers, id)
  {
    var q := p.(workers := RemoveFirst(p.workers, id));
    match IndexOf(p.workers, id)
    case None => q
    case Some(i) =>
      RemoveFirstSplices(p.workers, id, i);
      if Distinct(p.workers) then RemoveFirstOfDistinct(p.workers, id); q else q
  }

  /** A worker reports a new busy flag; only that worker's entry changes. */
  function SetBusy(p: Pool, id: WorkerId, busy: bool): (q: Pool)
    ensures |q.workers| == |p.workers|
    ensures forall k :: 0 <= k < |q.workers| ==>
              q.workers[k].id == p.workers[k].id
              && q.workers[k].busy == (if p.workers[k].id == id then busy else p.workers[k].busy)
    ensures q.starting == p.starting && q.cursor == p.cursor && SameSettings(p, q)
    ensures Wf(p) ==> Wf(q)
  {
    var ws := p.workers;
    p.(workers := seq(|ws|, k requires 0 <= k < |ws| =>
                        if ws[k].id == id then Worker(id, busy) else ws[k]))
  }

  // -------------------------------------------------------------------- ping

  /** The first idle worker in registration order (the scan at lines 130-135). */
  function FirstIdle(ws: seq<Worker>): (r: Option<nat>)
    ensures r.None? <==> AllBusy(ws)
    ensures r.Some? ==> r.value < |ws| && !ws[r.value].busy && AllBusy(ws[..r.value])
  {
    if |ws| == 0 then None
    else if !ws[0].busy then Some(0)
    else
      match FirstIdle(ws[1..])
      case None => None
      case Some(i) =>
        assert ws[..i + 1] == [ws[0]] + ws[1..][..i];
        Some(i + 1)
  }

  /** Steps 2 to 4 of `ping`, reached once the committed size is at least
      `minSize` (lines 130-139). */
  function Scale(p: Pool): (t: Transition)
    ensures FirstIdle(p.workers).Some? ==>
              t == Transition(p, Ready(p.workers[FirstIdle(p.workers).value]))
    ensures AllBusy(p.workers) && p.Committed() < p.maxSize ==>
              t.action == SpawnedOne && t.pool == SpawnStart(p)
    ensures AllBusy(p.workers) && p.maxSize <= p.Committed() ==> t == Transition(p, NoOp)
  {
    match FirstIdle(p.workers)
    case Some(i) => Transition(p, Ready(p.workers[i]))
    case None =>
      if p.Committed() < p.maxSize then Transition(SpawnStart(p), SpawnedOne)
      else Transition(p, NoOp)
  }

  /** `ping` as written (lines 121-140), reading line 124's `$++` as `$i++`.
      The catch-up loop runs `$i` from the committed size up to and INCLUDING
      `minSize`, so it issues one spawn more than the shortfall. */
  function Ping(p: Pool): (t: Transition)
    ensures t.pool.workers == p.workers && SameSettings(p, t.pool)
    ensures t.pool.starting == p.starting + Issued(t.action)
    ensures t.pool.cursor == Rotation.AdvanceN(p.cursor, p.strategies, Issued(t.action))
    ensures Wf(p) ==> Wf(t.pool)
    ensures p.Committed() < p.minSize ==>
              && t.action == SpawnedK(p.minSize - p.Committed() + 1)
              && t.pool.Committed() == p.minSize + 1
    ensures p.minSize <= p.Committed() && FirstIdle(p.workers).Some? ==>
              t == Transition(p, Ready(p.workers[FirstIdle(p.workers).value]))
    ensures p.minSize <= p.Committed() < p.maxSize && AllBusy(p.workers) ==>
              t.action == SpawnedOne && t.pool.Committed() == p.Committed() + 1
    ensures p.minSize <= p.Committed() && p.maxSize <= p.Committed() && AllBusy(p.workers) ==>
              t == Transition(p, NoOp)
  {
    if p.Committed() < p.minSize then
      var k: nat := p.minSize - p.Committed() + 1;
      Transition(SpawnStartN(p, k), SpawnedK(k))
    else
      Scale(p)
  }

  /** `ping` with the catch-up loop bounded strictly, as evidently intended:
      it brings the committed size up to exactly `minSize`. Steps 2 to 4 are
      those of `Ping`. */
  function PingCorrected(p: Pool): (t: Transition)
    ensures t.pool.workers == p.workers && SameSettings(p, t.pool)
    ensures t.pool.starting == p.starting + Issued(t.action)
    ensures t.pool.cursor == Rotation.AdvanceN(p.cursor, p.strategies, Issued(t.action))
    ensures Wf(p) ==> Wf(t.pool)
    ensures p.Committed() < p.minSize ==>
              && t.action == SpawnedK(p.minSize - p.Committed())
              && t.pool.Committed() == p.minSize
    ensures p.minSize <= p.Committed() ==> t == Ping(p)
  {
    if p.Committed() < p.minSize then
      var k: nat := p.minSize - p.Committed();
      Transition(SpawnStartN(p, k), SpawnedK(k))
    else
      Scale(p)
  }

  /** The catch-up loop of line 124, iteration by iteration: `$i` starts at the
      committed size and the loop runs while `$i <= minSize`. */
  method CatchUp(p: Pool) returns (q: Pool, issued: nat)
    requires p.Committed() < p.minSize
    ensures issued == p.minSize - p.Committed() + 1
    ensures q == SpawnStartN(p, issued)
    ensures Ping(p) == Transition(q, SpawnedK(issued))
  {
    q := p;
    issued := 0;
    var i: int := p.Committed();
    while i <= p.minSize
      invariant p.Committed() <= i <= p.minSize + 1
      invariant issued == i - p.Committed()
      invariant q.workers == p.workers && SameSettings(p, q)
      invariant q.starting == p.starting + issued
      invariant q.cursor == Rotation.AdvanceN(p.cursor, p.strategies, issued)
    {
      Rotation.AdvanceNSnoc(p.cursor, p.strategies, issued);
      q := SpawnStart(q);
      issued := issued + 1;
      i := i + 1;
    }
  }

  /** `spawn()` from the strategies' point of view (lines 71-73 and 104-107):
      the strategy under the cursor, read by `current()` before the cursor
      rotates, is the one the retry helper invokes on every attempt.
      `behaviours[s]` is what strategy `s` produces on successive invocations. */
  method Spawn<C>(p: Pool, behaviours: seq<seq<Retry.Outcome<C>>>)
    returns (q: Pool, r: Retry.Settled<C>, invoked: seq<nat>)
    requires |behaviours| == p.strategies && p.cursor < p.strategies
    ensures q == SpawnStart(p) && q.cursor == (p.cursor + 1) % p.strategies
    ensures r == Retry.SpawnAndGetMessenger(behaviours[p.cursor])
    ensures forall k :: 0 <= k < |invoked| ==> invoked[k] == p.cursor
    ensures r.Resolved? || r.Failed? ==> |invoked| == r.calls
  {
    var current := p.cursor;
    r, invoked := Retry.RetryLoop(behaviours, current);
    q := SpawnStart(p);
  }

  /** `ping` in the given reading of the source. The readings differ only in
      the size of the catch-up batch. */
  function PingIn(b: Build, p: Pool): (t: Transition)
    ensures t.pool.workers == p.workers && SameSettings(p, t.pool)
    ensures t.pool.starting == p.starting + Issued(t.action)
    ensures t.pool.cursor == Rotation.AdvanceN(p.cursor, p.strategies, Issued(t.action))
    ensures Wf(p) ==> Wf(t.pool)
    ensures p.Committed() < p.minSize ==>
              t.action == SpawnedK(p.minSize - p.Committed() + (if b == AsWritten then 1 else 0))
    ensures p.minSize <= p.Committed() ==> t == Ping(p)
  {
    match b
    case AsWritten => Ping(p)
    case Corrected => PingCorrected(p)
  }

  // -------------------------------------------------------- failure handling

  /** The rejection continuation of `spawn()` as written (lines 100-102): it
      calls `ping` without taking the failed spawn out of `startingProcesses`. */
  function SpawnFailure(p: Pool): (t: Transition)
    ensures t.pool.workers == p.workers && SameSettings(p, t.pool)
    ensures t.pool.starting == p.starting + Issued(t.action)
    ensures t.pool.Committed() == p.Committed() + Issued(t.action)
    ensures t.pool.cursor == Rotation.AdvanceN(p.cursor, p.strategies, Issued(t.action))
    ensures Wf(p) ==> Wf(t.pool)
    // the ping decides on a committed size that still counts the failed spawn
    ensures p.Committed() < p.minSize ==> t.pool.Committed() == p.minSize + 1
    ensures p.minSize <= p.Committed() && FirstIdle(p.workers).Some? ==>
              t == Transition(p, Ready(p.workers[FirstIdle(p.workers).value]))
    ensures AllBusy(p.workers) && p.minSize <= p.Committed() < p.maxSize ==> t.action == SpawnedOne
    // so a failed spawn on a full pool of busy workers is never replaced
    ensures AllBusy(p.workers) && p.minSize <= p.Committed() && p.maxSize <= p.Committed() ==>
              t == Transition(p, NoOp)
  {
    Ping(p)
  }

  /** The rejection continuation with the failed spawn taken out of the count
      before `ping` re-evaluates the pool. */
  function SpawnFailureCorrected(p: Pool): (t: Transition)
    requires 0 < p.starting
    ensures t.pool.workers == p.workers && SameSettings(p, t.pool)
    ensures t.pool.starting == p.starting - 1 + Issued(t.action)
    ensures t.pool.Committed() + 1 == p.Committed() + Issued(t.action)
    ensures t.pool.cursor == Rotation.AdvanceN(p.cursor, p.strategies, Issued(t.action))
    ensures Wf(p) ==> Wf(t.pool)
    // the ping decides on the committed size without the failed spawn
    ensures p.Committed() <= p.minSize ==>
              t.action == SpawnedK(p.minSize - p.Committed() + 1) && t.pool.Committed() == p.minSize
    ensures p.minSize < p.Committed() && FirstIdle(p.workers).Some? ==>
              t == Transition(p.(starting := p.starting - 1), Ready(p.workers[FirstIdle(p.workers).value]))
    // so a failed spawn is replaced whenever the pool is not above maxSize
    ensures AllBusy(p.workers) && p.minSize < p.Committed() <= p.maxSize ==>
              t.action == SpawnedOne && t.pool.Committed() == p.Committed()
    ensures AllBusy(p.workers) && p.minSize < p.Committed() && p.maxSize < p.Committed() ==>
              t.action == NoOp && t.pool.Committed() + 1 == p.Committed()
  {
    PingCorrected(p.(starting := p.starting - 1))
  }

  /** What the `error` handler did besides forwarding the error (lines 91-97). */
  datatype ErrorReaction = ErrorReaction(pool: Pool, terminate: Option<WorkerId>, ping: Option<Action>)

  /** The `error` continuation (lines 91-97): an unexpected end of the child
      process asks the worker to terminate (line 93) and pings the pool (line
      94); any other error only goes to the manager's listeners. `Worker` is
      not part of this model, so whether the worker's `terminating` event, and
      with it the removal, happens inside `terminate()` and so before the ping
      is an input: `removedFirst`. Otherwise the worker is still registered
      when the ping runs and is removed by a later `terminating` event. */
  function WorkerError(b: Build, p: Pool, id: WorkerId, unexpectedEnd: bool, removedFirst: bool): (e: ErrorReaction)
    ensures !unexpectedEnd ==> e == ErrorReaction(p, None, None)
    ensures unexpectedEnd ==> e.terminate == Some(id) && e.ping.Some?
    ensures unexpectedEnd && !removedFirst ==>
              e.pool.workers == p.workers && e.ping == Some(PingIn(b, p).action)
    ensures unexpectedEnd && removedFirst ==>
              && e.pool.workers == Terminating(p, id).workers
              && e.ping == Some(PingIn(b, Terminating(p, id)).action)
    ensures unexpectedEnd ==>
              && e.pool.starting == p.starting + Issued(e.ping.value)
              && e.pool.cursor == Rotation.AdvanceN(p.cursor, p.strategies, Issued(e.ping.value))
    ensures SameSettings(p, e.pool)
    ensures Wf(p) ==> Wf(e.pool)
    ensures Wf(p) && unexpectedEnd && removedFirst ==>
              !Present(e.pool.workers, id) && (e.ping.value.Ready? ==> e.ping.value.worker.id != id)
  {
    if unexpectedEnd then
      var before := if removedFirst then Terminating(p, id) else p;
      var t := PingIn(b, before);
      ErrorReaction(t.pool, Some(id), Some(t.action))
    else
      ErrorReaction(p, None, None)
  }

  /** When the dying worker is still registered and idle, the handler's ping
      surfaces it as ready instead of replacing it. */
  lemma DyingWorkerSurfaced(b: Build, n: Rotation.Positive, a: WorkerId)
    ensures var p := Pool([Worker(a, false)], 0, 0, n, 1, 1);
            WorkerError(b, p, a, true, false).ping == Some(Ready(Worker(a, false)))
  {
    var p := Pool([Worker(a, false)], 0, 0, n, 1, 1);
    assert FirstIdle(p.workers) == Some(0);
  }

  /** When the worker is removed before the ping, the same pool spawns a
      replacement: two spawns as written, exactly one corrected. */
  lemma DyingWorkerReplaced(n: Rotation.Positive, a: WorkerId)
    ensures var p := Pool([Worker(a, false)], 0, 0, n, 1, 1);
            && WorkerError(AsWritten, p, a, true, true).ping == Some(SpawnedK(2))
            && WorkerError(Corrected, p, a, true, true).ping == Some(SpawnedK(1))
  {
    var p := Pool([Worker(a, false)], 0, 0, n, 1, 1);
    assert IndexOf(p.workers, a) == Some(0);
    assert Terminating(p, a).workers == [];
  }

  // ------------------------------------------------------------- inspection

  /** The number of busy workers, counted in registration order. */
  function BusyCount(ws: seq<Worker>): nat
  {
    if |ws| == 0 then 0
    else BusyCount(ws[..|ws| - 1]) + (if ws[|ws| - 1].busy then 1 else 0)
  }

  /** The number of idle workers, counted in registration order. */
  function IdleCount(ws: seq<Worker>): nat
  {
    if |ws| == 0 then 0
    else IdleCount(ws[..|ws| - 1]) + (if ws[|ws| - 1].busy then 0 else 1)
  }

  /** Every worker is either busy or idle. */
  lemma {:induction false} BusyPlusIdle(ws: seq<Worker>)
    ensures BusyCount(ws) + IdleCount(ws) == |ws|
    decreases |ws|
  {
    if |ws| > 0 {
      BusyPlusIdle(ws[..|ws| - 1]);
    }
  }

  /** A pool with no idle worker has only busy ones. */
  lemma {:induction false} AllBusyCount(ws: seq<Worker>)
    ensures AllBusy(ws) <==> BusyCount(ws) == |ws|
    decreases |ws|
  {
    if |ws| > 0 {
      var init := ws[..|ws| - 1];
      AllBusyCount(init);
      BusyPlusIdle(init);
      assert forall k :: 0 <= k < |init| ==> init[k] == ws[k];
    }
  }

  /** `getTotal` (lines 160-163): running workers only, spawns in flight excluded. */
  function GetTotal(p: Pool): (n: nat)
    ensures n + p.starting == p.Committed()
  {
    |p.workers|
  }

  datatype Report = Report(total: nat, busy: nat, idle: int)

  /** `info` (lines 165-179): one scan counting busy workers; idle is the rest. */
  method Info(p: Pool) returns (r: Report)
    ensures r.total == GetTotal(p)
    ensures r.busy == BusyCount(p.workers) && r.idle == IdleCount(p.workers)
    ensures r.busy + r.idle == r.total
    ensures 0 <= r.busy <= r.total
    ensures r.busy == r.total <==> AllBusy(p.workers)
  {
    var ws := p.workers;
    var count := |ws|;
    var busy := 0;
    var i := 0;
    while i < |ws|
      invariant i <= |ws|
      invariant busy == BusyCount(ws[..i])
    {
      assert ws[..i + 1][..i] == ws[..i];
      if ws[i].busy {
        busy := busy + 1;
      }
      i := i + 1;
    }
    assert ws[..i] == ws;
    BusyPlusIdle(ws);
    AllBusyCount(ws);
    r := Report(count, busy, count - busy);
  }
}
