/** The timeout-retry helper `spawnAndGetMessenger` (src/Manager/Flexible.php:110-119).
    A spawn strategy is invoked; when its promise resolves with a messenger the
    helper resolves with it, when it resolves with anything else (a timeout) the
    SAME strategy is invoked again, and a rejection propagates to the caller.
    The asynchronous promise is modelled by the finite sequence of outcomes the
    strategy produces on its successive invocations. */
module Retry {

  /** What one invocation of a strategy settles to. */
  datatype Outcome<C> = Timeout | Channel(channel: C) | Rejected

  /** How the helper's promise settles, with the number of invocations it took.
      `Pending` means the given outcomes ran out while every one was a timeout. */
  datatype Settled<C> = Resolved(channel: C, calls: nat) | Failed(calls: nat) | Pending

  predicate AllTimeouts<C>(outcomes: seq<Outcome<C>>) {
    forall k :: 0 <= k < |outcomes| ==> outcomes[k].Timeout?
  }

  /** The helper as the source writes it: recursion on a timeout. */
  function SpawnAndGetMessenger<C>(outcomes: seq<Outcome<C>>): (r: Settled<C>)
    ensures r.Pending? <==> AllTimeouts(outcomes)
    ensures r.Resolved? ==>
              && 0 < r.calls <= |outcomes|
              && outcomes[r.calls - 1] == Channel(r.channel)
              && AllTimeouts(outcomes[..r.calls - 1])
    ensures r.Failed? ==>
              && 0 < r.calls <= |outcomes|
              && outcomes[r.calls - 1] == Rejected
              && AllTimeouts(outcomes[..r.calls - 1])
    decreases |outcomes|
  {
    if |outcomes| == 0 then Pending
    else match outcomes[0]
      case Channel(c) => Resolved(c, 1)
      case Rejected => Failed(1)
      case Timeout =>
        var rest := outcomes[1..];
        assert forall k :: 0 < k < |outcomes| ==> outcomes[k] == rest[k - 1];
        match SpawnAndGetMessenger(rest)
        case Resolved(c, n) =>
          assert outcomes[..n] == [outcomes[0]] + rest[..n - 1];
          Resolved(c, n + 1)
        case Failed(n) =>
          assert outcomes[..n] == [outcomes[0]] + rest[..n - 1];
          Failed(n + 1)
        case Pending => Pending
  }

  /** The helper settles at the first outcome that is not a timeout, after
      exactly that index plus one invocations: the first messenger is the
      result, and a rejection before any messenger is the failure. */
  lemma {:induction false} SettlesAtFirstNonTimeout<C>(outcomes: seq<Outcome<C>>, i: nat)
    requires i < |outcomes| && !outcomes[i].Timeout?
    requires AllTimeouts(outcomes[..i])
    ensures outcomes[i].Channel? ==>
              SpawnAndGetMessenger(outcomes) == Resolved(outcomes[i].channel, i + 1)
    ensures outcomes[i].Rejected? ==> SpawnAndGetMessenger(outcomes) == Failed(i + 1)
    decreases i
  {
    if i > 0 {
      assert outcomes[0] == outcomes[..i][0];
      var rest := outcomes[1..];
      assert rest[..i - 1] == outcomes[..i][1..];
      SettlesAtFirstNonTimeout(rest, i - 1);
    }
  }

  /** The helper as an explicit loop over the strategies' scripted behaviours
      (`behaviours[s]` is what strategy `s` produces on its successive
      invocations). It reports the strategies it invoked, in order: every
      invocation is of the strategy it was handed. */
  method RetryLoop<C>(behaviours: seq<seq<Outcome<C>>>, s: nat)
    returns (r: Settled<C>, invoked: seq<nat>)
    requires s < |behaviours|
    ensures r == SpawnAndGetMessenger(behaviours[s])
    ensures forall k :: 0 <= k < |invoked| ==> invoked[k] == s
    ensures r.Resolved? || r.Failed? ==> |invoked| == r.calls
    ensures r.Pending? ==> |invoked| == |behaviours[s]|
  {
    var outcomes := behaviours[s];
    var i := 0;
    invoked := [];
    while i < |outcomes| && outcomes[i].Timeout?
      invariant i <= |outcomes|
      invariant AllTimeouts(outcomes[..i])
      invariant |invoked| == i
      invariant forall k :: 0 <= k < |invoked| ==> invoked[k] == s
    {
      invoked := invoked + [s];
      i := i + 1;
    }
    if i == |outcomes| {
      assert outcomes[..i] == outcomes;
      r := Pending;
    } else {
      invoked := invoked + [s];
      SettlesAtFirstNonTimeout(outcomes, i);
      r := if outcomes[i].Channel? then Resolved(outcomes[i].channel, i + 1) else Failed(i + 1);
    }
  }

  /** One timeout, then a messenger: the same strategy is invoked twice and
      the helper resolves with that messenger. */
  lemma ScenarioTimeoutThenChannel<C>(c: C)
    ensures SpawnAndGetMessenger([Timeout, Channel(c)]) == Resolved(c, 2)
  {
    SettlesAtFirstNonTimeout([Timeout, Channel(c)], 1);
  }
}
