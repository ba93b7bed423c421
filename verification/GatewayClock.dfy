/**
 * The reservation's lifetime against the clock: how long a route may take for its successes to be paid for. Times are in
 * milliseconds. A reservation expires only when a sweep finds it past the time it was given.
 */
module GatewayClock {
  import opened Text
  import opened Errors
  import opened CreditLedger
  import opened GatewayLifecycle
  import opened GatewaySettlement
  import opened GatewayHolds

  /** The route's timeout in whole seconds, rounded up, and a minute. */
  function Lifetime(timeoutMs: nat): (t: nat)
    ensures timeoutMs + 60_000 <= t < timeoutMs + 61_000
  {
    (timeoutMs + 999) / 1000 * 1000 + 60_000
  }

  /** When each step of a run happens: in order, and a hold expires only after its lifetime. */
  ghost predicate Timed(steps: seq<Step>, at: seq<int>, i: nat, timeoutMs: nat) {
    && |at| == |steps|
    && (forall j, k :: 0 <= j < k < |at| ==> at[j] <= at[k])
    && (forall j, k :: 0 <= j < |steps| && 0 <= k < |steps| && steps[j] == On(i, ReserveHold) && steps[k] == On(i, ExpireHold) ==>
          at[j] + Lifetime(timeoutMs) < at[k])
  }

  lemma {:induction false} RunsSplit(s: State, a: seq<Step>, b: seq<Step>)
    requires ValidRun(s, a + b)
    ensures ValidRun(s, a) && ValidRun(Exec(s, a), b) && Exec(s, a + b) == Exec(Exec(s, a), b)
    decreases |a|
  {
    if a == [] {
      assert a + b == b;
    } else {
      assert (a + b)[1..] == a[1..] + b;
      RunsSplit(Next(s, a[0]), a[1..], b);
    }
  }

  predicate PaidFor(s: State, i: nat) {
    i < |s.reqs| && Spent(s.reqs[i])
  }

  lemma {:induction false} PaidForGood(s: State, steps: seq<Step>, i: nat)
    requires ValidRun(s, steps) && PaidFor(s, i)
    ensures PaidFor(Exec(s, steps), i)
    decreases |steps|
  {
    if steps != [] {
      PaidForGood(Next(s, steps[0]), steps[1..], i);
    }
  }

  /** On the failure path, or stopped. */
  predicate GivenUp(s: State, i: nat) {
    && i < |s.reqs| && s.reqs[i].row.status != Succeeded
    && (s.reqs[i].proc.Some? ==> s.reqs[i].proc.value.Giving? || s.reqs[i].proc.value.Given?)
  }

  lemma {:induction false} GivenUpNeverSucceeds(s: State, steps: seq<Step>, i: nat)
    requires ValidRun(s, steps) && GivenUp(s, i)
    ensures GivenUp(Exec(s, steps), i)
    decreases |steps|
  {
    if steps != [] {
      GivenUpNeverSucceeds(Next(s, steps[0]), steps[1..], i);
    }
  }

  /** A settlement over a hold that has not expired spends it, or puts the request on the failure path. */
  lemma SettlesOpenHold(s: State, i: nat)
    requires Inv(s) && Enabled(s, On(i, SettleHold)) && !HoldExpired(s, i)
    ensures PaidFor(Next(s, On(i, SettleHold)), i) || GivenUp(Next(s, On(i, SettleHold)), i)
  {
    assert RequestInv(s.reqs[i], UsageOf(s.usage, i));
  }

  /** A success that was settled within the lifetime of its reservation was settled for its charge. */
  lemma SettledInTimeIsPaid(steps: seq<Step>, at: seq<int>, i: nat, timeoutMs: nat, j: nat, k: nat)
    requires ValidRun(INIT, steps) && Timed(steps, at, i, timeoutMs)
    requires j < |steps| && steps[j] == On(i, ReserveHold) && k < |steps| && steps[k] == On(i, SettleHold)
    requires at[k] <= at[j] + Lifetime(timeoutMs)
    requires i < |Exec(INIT, steps).reqs| && Exec(INIT, steps).reqs[i].row.status == Succeeded
    ensures Settled1(Exec(INIT, steps).reqs[i]) == Exec(INIT, steps).reqs[i].row.charged
  {
    var before, after := steps[..k], steps[k + 1..];
    assert steps == before + ([steps[k]] + after);
    RunsSplit(INIT, before, [steps[k]] + after);
    assert ([steps[k]] + after)[1..] == after;
    var s := Exec(INIT, before);
    RunKeepsInv(INIT, before);
    ExpiredExactlyByItsStep(INIT, before, i);
    forall m | 0 <= m < k
      ensures before[m] != On(i, ExpireHold)
    {
      assert at[m] <= at[k] && before[m] == steps[m];
    }
    SettlesOpenHold(s, i);
    if PaidFor(Next(s, steps[k]), i) {
      PaidForGood(Next(s, steps[k]), after, i);
      RowsInEveryReachableState(steps, i);
    } else {
      GivenUpNeverSucceeds(Next(s, steps[k]), after, i);
    }
  }

  /** What a route's two phases may take: moderation its timeout, and the walk as much again. */
  predicate KeepsItsTimes(steps: seq<Step>, at: seq<int>, i: nat, timeoutMs: nat)
    requires |at| == |steps|
  {
    forall j, k :: 0 <= j < |steps| && 0 <= k < |steps| && steps[j] == On(i, ReserveHold) && steps[k] == On(i, SettleHold) ==>
      at[k] <= at[j] + 2 * timeoutMs
  }

  /** A success of request i, for which nothing was settled. */
  predicate Unpaid(steps: seq<Step>, i: nat)
    requires ValidRun(INIT, steps)
  {
    var s := Exec(INIT, steps);
    i < |s.reqs| && s.reqs[i].row.status == Succeeded && Settled1(s.reqs[i]) != s.reqs[i].row.charged
  }

  ghost predicate CanGoUnpaid(timeoutMs: nat) {
    exists steps, at, i: nat :: ValidRun(INIT, steps) && Timed(steps, at, i, timeoutMs) && KeepsItsTimes(steps, at, i, timeoutMs) && Unpaid(steps, i)
  }

  lemma {:induction false} SettledByAStep(s: State, steps: seq<Step>, i: nat)
    requires Inv(s) && ValidRun(s, steps) && i < |Exec(s, steps).reqs| && Exec(s, steps).reqs[i].row.status == Succeeded
    requires i < |s.reqs| ==> s.reqs[i].row.status != Succeeded && !AboutToRecord(s.reqs[i])
    ensures On(i, SettleHold) in steps
    decreases |steps|
  {
    if steps[0] != On(i, SettleHold) {
      StepKeepsInv(s, steps[0]);
      SettledByAStep(Next(s, steps[0]), steps[1..], i);
    }
  }

  lemma {:induction false} ReservedByAStep(s: State, steps: seq<Step>, i: nat)
    requires ValidRun(s, steps) && HoldOf(s, i).None? && HoldOf(Exec(s, steps), i).Some?
    ensures On(i, ReserveHold) in steps
    decreases |steps|
  {
    if steps[0] != On(i, ReserveHold) {
      ReservedByAStep(Next(s, steps[0]), steps[1..], i);
    }
  }

  /** Everything up to the walk at once, and everything from the expiry on as the walk's time runs out. */
  function LateTimes(timeoutMs: nat): seq<int> {
    [0, 0, 0, timeoutMs, 2 * timeoutMs, 2 * timeoutMs, 2 * timeoutMs, 2 * timeoutMs]
  }

  lemma LateTimesFit(key: string, price: nat, timeoutMs: nat)
    requires Lifetime(timeoutMs) < 2 * timeoutMs
    ensures Timed(UnpaidRun(key, price), LateTimes(timeoutMs), 0, timeoutMs)
    ensures KeepsItsTimes(UnpaidRun(key, price), LateTimes(timeoutMs), 0, timeoutMs)
  {
    var steps, at := UnpaidRun(key, price), LateTimes(timeoutMs);
    forall j, k | 0 <= j < |steps| && 0 <= k < |steps| && steps[j] == On(0, ReserveHold) && steps[k] == On(0, ExpireHold)
      ensures at[j] + Lifetime(timeoutMs) < at[k]
    {
      assert j == 1 && k == 4;
    }
  }

  /** The unpaid run against the clock: the walk answers as its own time runs out, after the reservation has lapsed. */
  lemma SlowRouteGoesUnpaid(timeoutMs: nat)
    requires Lifetime(timeoutMs) < 2 * timeoutMs
    ensures CanGoUnpaid(timeoutMs)
  {
    ChargedWithoutSettlement("key", 1);
    LateTimesFit("key", 1, timeoutMs);
    assert Unpaid(UnpaidRun("key", 1), 0);
  }

  /**
   * With moderation and walk each within the route's timeout, a success can go unpaid if and only if two timeouts are
   * longer than the reservation lives: never up to a timeout of a minute, always from 61 seconds on.
   */
  lemma UnpaidOnlyBySlowRoutes(timeoutMs: nat)
    ensures CanGoUnpaid(timeoutMs) <==> Lifetime(timeoutMs) < 2 * timeoutMs
    ensures timeoutMs <= 60_000 ==> !CanGoUnpaid(timeoutMs)
    ensures 61_000 <= timeoutMs ==> CanGoUnpaid(timeoutMs)
  {
    if Lifetime(timeoutMs) < 2 * timeoutMs {
      SlowRouteGoesUnpaid(timeoutMs);
    } else {
      forall steps, at, i: nat | ValidRun(INIT, steps) && Timed(steps, at, i, timeoutMs) && KeepsItsTimes(steps, at, i, timeoutMs)
        ensures !Unpaid(steps, i)
      {
        FastRouteIsPaid(steps, at, i, timeoutMs);
      }
    }
  }

  lemma FastRouteIsPaid(steps: seq<Step>, at: seq<int>, i: nat, timeoutMs: nat)
    requires ValidRun(INIT, steps) && Timed(steps, at, i, timeoutMs) && KeepsItsTimes(steps, at, i, timeoutMs)
    requires 2 * timeoutMs <= Lifetime(timeoutMs)
    ensures !Unpaid(steps, i)
  {
    if Unpaid(steps, i) {
      SettledByAStep(INIT, steps, i);
      RowsInEveryReachableState(steps, i);
      ReservedByAStep(INIT, steps, i);
      var j :| 0 <= j < |steps| && steps[j] == On(i, ReserveHold);
      var k :| 0 <= k < |steps| && steps[k] == On(i, SettleHold);
      SettledInTimeIsPaid(steps, at, i, timeoutMs, j, k);
    }
  }
}
