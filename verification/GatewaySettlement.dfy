/**
 * What the lifecycle guarantees about money: how often one customer key is settled, when the usage
 * ledger and the wallet agree, and exactly which steps break either.
 */
module GatewaySettlement {
  import opened Text
  import opened Errors
  import opened CreditLedger
  import opened GatewayLifecycle

  // --- Books ---------------------------------------------------------------------------------------

  function UsageTotal(usage: seq<Usage>): nat {
    if usage == [] then 0 else UsageTotal(usage[..|usage| - 1]) + usage[|usage| - 1].charged
  }

  function Sum(charges: seq<nat>): nat {
    if charges == [] then 0 else Sum(charges[..|charges| - 1]) + charges[|charges| - 1]
  }

  /** What the wallet paid for a request. */
  function Settled1(r: Request): nat {
    if Spent(r) then r.hold.value.settled else 0
  }

  /** Paid for, and not (or not yet) recorded as a success. */
  function Unrecorded1(r: Request): nat {
    if Spent(r) && r.row.status != Succeeded then r.hold.value.settled else 0
  }

  /** Recorded as a charged success although the hold had already lapsed, so nothing was paid. */
  function Unpaid1(r: Request): nat {
    if r.row.status == Succeeded && !Spent(r) then r.row.charged else 0
  }

  function SettledTotal(reqs: seq<Request>): nat {
    if reqs == [] then 0 else SettledTotal(reqs[..|reqs| - 1]) + Settled1(reqs[|reqs| - 1])
  }

  function UnrecordedTotal(reqs: seq<Request>): nat {
    if reqs == [] then 0 else UnrecordedTotal(reqs[..|reqs| - 1]) + Unrecorded1(reqs[|reqs| - 1])
  }

  function UnpaidTotal(reqs: seq<Request>): nat {
    if reqs == [] then 0 else UnpaidTotal(reqs[..|reqs| - 1]) + Unpaid1(reqs[|reqs| - 1])
  }

  /** The usage ledger's charges, request by request over the first n requests. */
  function UsageByRequest(usage: seq<Usage>, n: nat): nat {
    if n == 0 then 0 else UsageByRequest(usage, n - 1) + Sum(UsageOf(usage, n - 1))
  }

  lemma SumAppend(charges: seq<nat>, c: nat)
    ensures Sum(charges + [c]) == Sum(charges) + c
  {
    assert (charges + [c])[..|charges|] == charges;
  }

  lemma {:induction false} ByRequestOfAppend(usage: seq<Usage>, u: Usage, n: nat)
    ensures UsageByRequest(usage + [u], n) == UsageByRequest(usage, n) + if u.request < n then u.charged else 0
  {
    if n > 0 {
      ByRequestOfAppend(usage, u, n - 1);
      UsageOfAppend(usage, u, n - 1);
      SumAppend(UsageOf(usage, n - 1), u.charged);
    }
  }

  lemma {:induction false} NoUsageNoTotal(n: nat)
    ensures UsageByRequest([], n) == 0
  {
    if n > 0 {
      NoUsageNoTotal(n - 1);
    }
  }

  lemma {:induction false} TotalByRequest(usage: seq<Usage>, n: nat)
    requires forall k :: 0 <= k < |usage| ==> usage[k].request < n
    ensures UsageTotal(usage) == UsageByRequest(usage, n)
  {
    if usage == [] {
      NoUsageNoTotal(n);
    } else {
      var front := usage[..|usage| - 1];
      TotalByRequest(front, n);
      assert usage == front + [usage[|usage| - 1]];
      ByRequestOfAppend(front, usage[|usage| - 1], n);
    }
  }

  /** One request's share of the books. */
  lemma BooksOfOne(r: Request, charges: seq<nat>)
    requires RequestInv(r, charges)
    ensures Sum(charges) + Unrecorded1(r) == Settled1(r) + Unpaid1(r)
  {
    if charges != [] {
      assert charges == [charges[0]] && charges[..0] == [];
    }
  }

  lemma {:induction false} BooksUpTo(s: State, n: nat)
    requires Inv(s) && n <= |s.reqs|
    ensures UsageByRequest(s.usage, n) + UnrecordedTotal(s.reqs[..n])
         == SettledTotal(s.reqs[..n]) + UnpaidTotal(s.reqs[..n])
  {
    if n > 0 {
      BooksUpTo(s, n - 1);
      assert s.reqs[..n][..n - 1] == s.reqs[..n - 1];
      assert RequestInv(s.reqs[n - 1], UsageOf(s.usage, n - 1));
      BooksOfOne(s.reqs[n - 1], UsageOf(s.usage, n - 1));
    }
  }

  /** The exact books, in every reachable state: nothing is charged or settled outside these four terms. */
  lemma BooksInEveryReachableState(steps: seq<Step>)
    requires ValidRun(INIT, steps)
    ensures var s := Exec(INIT, steps);
            UsageTotal(s.usage) + UnrecordedTotal(s.reqs) == SettledTotal(s.reqs) + UnpaidTotal(s.reqs)
  {
    var s := Exec(INIT, steps);
    RunKeepsInv(INIT, steps);
    TotalByRequest(s.usage, |s.reqs|);
    BooksUpTo(s, |s.reqs|);
    assert s.reqs[..|s.reqs|] == s.reqs;
  }

  /** Row by row, in every reachable state. */
  lemma RowsInEveryReachableState(steps: seq<Step>, i: nat)
    requires ValidRun(INIT, steps) && i < |Exec(INIT, steps).reqs|
    ensures var s := Exec(INIT, steps);
            var r := s.reqs[i];
            // A terminal request that recorded a reservation has it closed.
            && (Terminal(r.row.status) && r.row.noted ==> Closed(r))
            // A request that did not succeed charges zero, and so do its usage rows.
            && (r.row.status != Succeeded ==> r.row.charged == 0 && Sum(UsageOf(s.usage, i)) == 0)
            // A success has exactly one usage row, with its own charge.
            && (r.row.status == Succeeded ==> UsageOf(s.usage, i) == [r.row.charged])
            // What was settled for a success is its charge, unless the hold expired and nothing was.
            && (r.row.status == Succeeded ==> Closed(r) && Settled1(r) == (if r.hold.value.status == Expired then 0 else r.row.charged))
            // And neither exceeds the reservation.
            && r.row.charged <= r.row.estimate && Settled1(r) <= r.row.estimate
  {
    RunKeepsInv(INIT, steps);
    var s := Exec(INIT, steps);
    assert RequestInv(s.reqs[i], UsageOf(s.usage, i));
    var charges := UsageOf(s.usage, i);
    if charges != [] {
      assert charges[..|charges| - 1] == [];
    }
  }

  // --- One settlement per key ----------------------------------------------------------------------

  predicate SettledFor(s: State, key: string, i: nat) {
    i < |s.reqs| && s.reqs[i].row.asked == key && Spent(s.reqs[i])
  }

  predicate AboutToRecord(r: Request) {
    r.proc.Some? && r.proc.value.Paid?
  }

  /** Settled, not a success, and no longer on the way to being recorded as one. */
  predicate Stranded(r: Request) {
    Spent(r) && r.row.status != Succeeded && !AboutToRecord(r)
  }

  /** The only two ways to lose the record of a settlement: its write fails, or its process stops first. */
  predicate LosesRecord(s: State, st: Step)
    requires Enabled(s, st)
  {
    st.On? && st.act in {RecordFault, Crash} && AboutToRecord(s.reqs[st.id]) && Spent(s.reqs[st.id])
  }

  predicate Lossless(s: State, steps: seq<Step>)
    requires ValidRun(s, steps)
    decreases |steps|
  {
    steps == [] || (!LosesRecord(s, steps[0]) && Lossless(Next(s, steps[0]), steps[1..]))
  }

  /** At most one settlement per key, unless one of the two is stranded. */
  lemma TwoSettlementsMeanAStrandedOne(s: State, key: string, i: nat, j: nat)
    requires Inv(s) && i < j && SettledFor(s, key, i) && SettledFor(s, key, j)
    ensures Stranded(s.reqs[i]) || Stranded(s.reqs[j])
  {
    assert RequestInv(s.reqs[i], UsageOf(s.usage, i));
    assert RequestInv(s.reqs[j], UsageOf(s.usage, j));
    assert s.reqs[i].row.name != s.reqs[j].row.name;
  }

  /** A request becomes stranded exactly at a step that loses its record. */
  lemma StrandedExactlyByLoss(s: State, st: Step, i: nat)
    requires Inv(s) && Enabled(s, st) && i < |s.reqs| && !Stranded(s.reqs[i])
    ensures Stranded(Next(s, st).reqs[i]) <==> LosesRecord(s, st) && st.id == i
  {
    assert RequestInv(s.reqs[i], UsageOf(s.usage, i));
  }

  lemma StrandedStep(s: State, st: Step, i: nat)
    requires Inv(s) && Enabled(s, st) && i < |s.reqs| && Stranded(s.reqs[i])
    ensures Stranded(Next(s, st).reqs[i]) && Next(s, st).reqs[i].row.asked == s.reqs[i].row.asked
    ensures Settled1(Next(s, st).reqs[i]) == Settled1(s.reqs[i])
  {
    assert RequestInv(s.reqs[i], UsageOf(s.usage, i));
  }

  /** Nothing ever repairs a stranded request: no step of any run records it or returns its credits. */
  lemma {:induction false} StrandedForGood(s: State, steps: seq<Step>, i: nat)
    requires Inv(s) && ValidRun(s, steps) && i < |s.reqs| && Stranded(s.reqs[i])
    ensures i < |Exec(s, steps).reqs| && Stranded(Exec(s, steps).reqs[i])
    ensures Exec(s, steps).reqs[i].row.asked == s.reqs[i].row.asked
    ensures Settled1(Exec(s, steps).reqs[i]) == Settled1(s.reqs[i])
    decreases |steps|
  {
    if steps != [] {
      StrandedStep(s, steps[0], i);
      StepKeepsInv(s, steps[0]);
      StrandedForGood(Next(s, steps[0]), steps[1..], i);
    }
  }

  predicate NoneStranded(s: State, key: string) {
    forall i :: 0 <= i < |s.reqs| && s.reqs[i].row.asked == key ==> !Stranded(s.reqs[i])
  }

  lemma {:induction false} LosslessStrandsNobody(s: State, steps: seq<Step>, key: string)
    requires Inv(s) && ValidRun(s, steps) && Lossless(s, steps) && NoneStranded(s, key)
    ensures NoneStranded(Exec(s, steps), key)
    decreases |steps|
  {
    if steps != [] {
      var s' := Next(s, steps[0]);
      forall i | 0 <= i < |s'.reqs| && s'.reqs[i].row.asked == key
        ensures !Stranded(s'.reqs[i])
      {
        if i < |s.reqs| {
          StrandedExactlyByLoss(s, steps[0], i);
        }
      }
      StepKeepsInv(s, steps[0]);
      LosslessStrandsNobody(s', steps[1..], key);
    }
  }

  /**
   * Safety over whole runs: whatever callers, crashes, retries, sweeps and expiries interleave, one
   * customer key is settled at most once, provided no step loses the record of a settlement.
   */
  lemma AtMostOneSettlementPerKey(steps: seq<Step>, key: string, i: nat, j: nat)
    requires ValidRun(INIT, steps) && Lossless(INIT, steps)
    requires SettledFor(Exec(INIT, steps), key, i) && SettledFor(Exec(INIT, steps), key, j)
    ensures i == j
  {
    RunKeepsInv(INIT, steps);
    LosslessStrandsNobody(INIT, steps, key);
    var s := Exec(INIT, steps);
    if i < j {
      TwoSettlementsMeanAStrandedOne(s, key, i, j);
    } else if j < i {
      TwoSettlementsMeanAStrandedOne(s, key, j, i);
    }
  }

  // --- And exactly when a retry settles the key again -------------------------------------------------

  ghost predicate SettledTwice(s: State, key: string) {
    exists i, j :: i < j && SettledFor(s, key, i) && SettledFor(s, key, j)
  }

  ghost predicate CanSettleTwice(s: State, key: string) {
    exists steps: seq<Step> :: ValidRun(s, steps) && Lossless(s, steps) && SettledTwice(Exec(s, steps), key)
  }

  lemma Prepend(s: State, st: Step, rest: seq<Step>)
    requires Enabled(s, st) && ValidRun(Next(s, st), rest)
    ensures ValidRun(s, [st] + rest) && Exec(s, [st] + rest) == Exec(Next(s, st), rest)
    ensures Lossless(Next(s, st), rest) && !LosesRecord(s, st) ==> Lossless(s, [st] + rest)
  {
    assert ([st] + rest)[1..] == rest;
  }

  /** A claimed request about to reserve one unit, at the end of the table. */
  function LastClaimed(s: State, key: string): State {
    s.(reqs := s.reqs + [Request(Row(key, key, Pending, None, 1, 0, false), None, Some(Claimed))])
  }

  /** The last request of a table, acting on its own without adding usage. */
  lemma LastActs(s: State, r: Request, act: Act, r': Request, rest: seq<Step>, last: State) returns (steps: seq<Step>)
    requires CanAct(r, act) && After(r, act) == r' && UsageCharges(r, act) == [] && !AboutToRecord(r)
    requires ValidRun(s.(reqs := s.reqs + [r']), rest) && Lossless(s.(reqs := s.reqs + [r']), rest)
    requires Exec(s.(reqs := s.reqs + [r']), rest) == last
    ensures ValidRun(s.(reqs := s.reqs + [r]), steps) && Lossless(s.(reqs := s.reqs + [r]), steps)
    ensures Exec(s.(reqs := s.reqs + [r]), steps) == last
  {
    var n, t := |s.reqs|, s.(reqs := s.reqs + [r]);
    assert t.reqs[n] == r && t.reqs[n := r'] == s.reqs + [r'];
    assert t.usage + Rows(n, []) == s.usage;
    Prepend(t, On(n, act), rest);
    steps := [On(n, act)] + rest;
  }

  /** From its claim, a request of one unit can be reserved, answered and settled, touching no other. */
  lemma ClaimedCanSettle(s: State, key: string) returns (steps: seq<Step>)
    ensures ValidRun(LastClaimed(s, key), steps) && Lossless(LastClaimed(s, key), steps)
    ensures SettledFor(Exec(LastClaimed(s, key), steps), key, |s.reqs|)
    ensures forall i :: 0 <= i < |s.reqs| ==> Exec(LastClaimed(s, key), steps).reqs[i] == s.reqs[i]
  {
    var row, hold := Row(key, key, Pending, None, 1, 0, false), Hold(1, Open, 0);
    var claimed := Request(row, None, Some(Claimed));
    var held := Request(row, Some(hold), Some(Held));
    var ready := Request(row.(status := Reserved, noted := true), Some(hold), Some(Ready));
    var walking := Request(row.(status := Running, noted := true), Some(hold), Some(Walking));
    var answered := walking.(proc := Some(Pc.Answered(1)));
    var paid := answered.(hold := Some(Hold(1, CreditLedger.Settled, 1)), proc := Some(Paid(1)));
    var last := s.(reqs := s.reqs + [paid]);
    steps := LastActs(s, answered, SettleHold, paid, [], last);
    steps := LastActs(s, walking, Answer(1), answered, steps, last);
    steps := LastActs(s, ready, StartWalk, walking, steps, last);
    steps := LastActs(s, held, NoteHold, ready, steps, last);
    steps := LastActs(s, claimed, ReserveHold, held, steps, last);
  }

  /** A free key can be claimed, reserved, answered and settled, touching no other request. */
  lemma FreeKeyCanSettle(s: State, key: string) returns (steps: seq<Step>)
    requires !NameTaken(s, key)
    ensures ValidRun(s, steps) && Lossless(s, steps)
    ensures SettledFor(Exec(s, steps), key, |s.reqs|)
    ensures forall i :: 0 <= i < |s.reqs| ==> Exec(s, steps).reqs[i] == s.reqs[i]
  {
    steps := ClaimedCanSettle(s, key);
    assert Next(s, Claim(key, 1)) == LastClaimed(s, key);
    Prepend(s, Claim(key, 1), steps);
    steps := [Claim(key, 1)] + steps;
  }

  /** The client retries a key whose last attempt failed transiently, and the retry succeeds. */
  lemma RetryCanSettle(s: State, key: string, h: nat) returns (steps: seq<Step>)
    requires Inv(s) && h < |s.reqs| && s.reqs[h].row.name == key && Retryable(s.reqs[h].row)
    requires !NameTaken(s, SupersededName(key, h))
    ensures ValidRun(s, steps) && Lossless(s, steps)
    ensures SettledFor(Exec(s, steps), key, |s.reqs|)
    ensures forall i :: 0 <= i < |s.reqs| ==>
              Exec(s, steps).reqs[i].hold == s.reqs[i].hold && Exec(s, steps).reqs[i].row.asked == s.reqs[i].row.asked
  {
    var s1 := Next(s, ReadRetryable(h, key));
    var s2 := Next(s1, Supersede(h, key));
    StepKeepsInv(s, ReadRetryable(h, key));
    assert !NameTaken(s2, key);
    steps := FreeKeyCanSettle(s2, key);
    Prepend(s1, Supersede(h, key), steps);
    steps := [Supersede(h, key)] + steps;
    Prepend(s, ReadRetryable(h, key), steps);
    steps := [ReadRetryable(h, key)] + steps;
  }

  /**
   * The documented promise that re-running a key charges once, made exact. When the row holding the key
   * is one a retry may supersede, a second settlement is reachable without any further loss if and only
   * if some earlier request of the key is already settled without being a recorded success.
   */
  lemma RetrySettlesAgainIff(s: State, key: string, h: nat)
    requires Inv(s) && h < |s.reqs| && s.reqs[h].row.name == key && Retryable(s.reqs[h].row)
    requires !NameTaken(s, SupersededName(key, h))
    ensures CanSettleTwice(s, key) <==> !NoneStranded(s, key)
  {
    if !NoneStranded(s, key) {
      var i :| 0 <= i < |s.reqs| && s.reqs[i].row.asked == key && Stranded(s.reqs[i]);
      var steps := RetryCanSettle(s, key, h);
      assert SettledFor(Exec(s, steps), key, i) && SettledFor(Exec(s, steps), key, |s.reqs|);
    } else {
      forall steps: seq<Step> | ValidRun(s, steps) && Lossless(s, steps)
        ensures !SettledTwice(Exec(s, steps), key)
      {
        LosslessStrandsNobody(s, steps, key);
        RunKeepsInv(s, steps);
        var s' := Exec(s, steps);
        forall i, j | i < j && SettledFor(s', key, i) && SettledFor(s', key, j)
          ensures false
        {
          TwoSettlementsMeanAStrandedOne(s', key, i, j);
        }
      }
    }
  }

  /** A request answered at full price whose success could not be recorded, just before its hold is released. */
  function Unrecorded(key: string, price: nat): Request {
    Request(Row(key, key, Running, None, price, 0, true), Some(Hold(price, CreditLedger.Settled, price)), Some(Giving(Unknown, true)))
  }

  /** From the answer of the provider to the failed record. */
  lemma SettledThenLost(key: string, price: nat, rest: seq<Step>, last: State) returns (steps: seq<Step>)
    requires 0 < price
    requires ValidRun(State([Unrecorded(key, price)], [], {}), rest)
    requires Exec(State([Unrecorded(key, price)], [], {}), rest) == last
    ensures var walking := Request(Row(key, key, Running, None, price, 0, true), Some(Hold(price, Open, 0)), Some(Walking));
            ValidRun(State([walking], [], {}), steps) && Exec(State([walking], [], {}), steps) == last
  {
    var lost := Unrecorded(key, price);
    var walking := lost.(hold := Some(Hold(price, Open, 0)), proc := Some(Walking));
    steps := Quiet(lost.(proc := Some(Paid(price))), RecordFault, lost, rest, last);
    steps := Quiet(walking.(proc := Some(Answered(price))), SettleHold, lost.(proc := Some(Paid(price))), steps, last);
    steps := Quiet(walking, Answer(price), walking.(proc := Some(Answered(price))), steps, last);
  }

  /**
   * The counterexample, for every key and price: the settlement commits, its record fails, the failure path
   * releases nothing, and a request that failed with charge zero has cost its full price. The key is then
   * free for a retry, which settles it a second time.
   */
  lemma ChargedForAFailure(key: string, price: nat) returns (steps: seq<Step>, last: State)
    requires 0 < price
    ensures ValidRun(INIT, steps) && Exec(INIT, steps) == last
    ensures |last.reqs| == 1
    ensures last.reqs[0].row.status == Failed && last.reqs[0].row.charged == 0
    ensures Settled1(last.reqs[0]) == price && UsageTotal(last.usage) == 0
    ensures CanSettleTwice(last, key)
  {
    var lost := Unrecorded(key, price);
    last := State([Request(FailedRow(lost.row, Unknown), lost.hold, None)], [Usage(0, 0)], {});
    steps := FailureTail(lost, last);
    steps := SettledThenLost(key, price, steps, last);
    var claimed := Request(Row(key, key, Pending, None, price, 0, false), None, Some(Claimed));
    var held := claimed.(hold := Some(Hold(price, Open, 0)), proc := Some(Held));
    var ready := held.(row := held.row.(status := Reserved, noted := true), proc := Some(Ready));
    steps := Quiet(ready, StartWalk, ready.(row := lost.row, proc := Some(Walking)), steps, last);
    steps := Quiet(held, NoteHold, ready, steps, last);
    steps := Quiet(claimed, ReserveHold, held, steps, last);
    assert INIT.reqs + [claimed] == [claimed];
    Prepend(INIT, Claim(key, price), steps);
    steps := [Claim(key, price)] + steps;
    RunKeepsInv(INIT, steps);
    assert [Usage(0, 0)][..0] == [];
    assert Stranded(last.reqs[0]);
    RetrySettlesAgainIff(last, key, 0);
  }

  /** One act of the only request, adding no usage row, in front of a run. */
  lemma Quiet(r: Request, act: Act, r': Request, rest: seq<Step>, last: State) returns (steps: seq<Step>)
    requires CanAct(r, act) && After(r, act) == r' && UsageCharges(r, act) == []
    requires ValidRun(State([r'], [], {}), rest) && Exec(State([r'], [], {}), rest) == last
    ensures ValidRun(State([r], [], {}), steps) && Exec(State([r], [], {}), steps) == last
    ensures steps == [On(0, act)] + rest
  {
    var s := State([r], [], {});
    assert Next(s, On(0, act)) == State([r'], [], {});
    Prepend(s, On(0, act), rest);
    steps := [On(0, act)] + rest;
  }

  /** The failure path of the only request, from the release of a hold that is already settled. */
  lemma FailureTail(r: Request, last: State) returns (steps: seq<Step>)
    requires r.row.noted && HoldOk(r) && Spent(r) && r.proc == Some(Giving(Unknown, true))
    requires last == State([Request(FailedRow(r.row, Unknown), r.hold, None)], [Usage(0, 0)], {})
    ensures ValidRun(State([r], [], {}), steps) && Exec(State([r], [], {}), steps) == last
  {
    var given := r.(proc := Some(Given(Unknown, true)));
    var s := State([given], [], {});
    assert Rows(0, [0]) == [Usage(0, 0)];
    assert Next(s, On(0, RecordFailure)) == last;
    Prepend(s, On(0, RecordFailure), []);
    steps := [On(0, RecordFailure)];
    assert steps == [On(0, RecordFailure)] + [];
    steps := Quiet(r, ReleaseHold, given, steps, last);
  }

  // --- A success is final ----------------------------------------------------------------------------

  lemma SuccessStep(s: State, st: Step, i: nat)
    requires Inv(s) && Enabled(s, st) && i < |s.reqs| && s.reqs[i].row.status == Succeeded
    ensures Next(s, st).reqs[i] == s.reqs[i] && UsageOf(Next(s, st).usage, i) == UsageOf(s.usage, i)
    ensures forall j :: 0 <= j < |Next(s, st).reqs| && j >= |s.reqs| ==> Next(s, st).reqs[j].row.asked != s.reqs[i].row.asked
    ensures forall j :: 0 <= j < |s.reqs| && s.reqs[j].row.asked == s.reqs[i].row.asked ==>
              Settled1(Next(s, st).reqs[j]) == Settled1(s.reqs[j]) && Next(s, st).reqs[j].row.asked == s.reqs[j].row.asked
  {
    assert RequestInv(s.reqs[i], UsageOf(s.usage, i));
    if st.On? {
      UsageOfRows(s.usage, st.id, UsageCharges(s.reqs[st.id], st.act), i);
      assert UsageOf(s.usage, i) + [] == UsageOf(s.usage, i);
    }
    forall j | 0 <= j < |s.reqs| && s.reqs[j].row.asked == s.reqs[i].row.asked
      ensures Settled1(Next(s, st).reqs[j]) == Settled1(s.reqs[j])
      ensures Next(s, st).reqs[j].row.asked == s.reqs[j].row.asked
    {
      assert RequestInv(s.reqs[j], UsageOf(s.usage, j));
      if j < i {
        assert s.reqs[j].row.name != s.reqs[i].row.name;
      } else if i < j {
        assert s.reqs[i].row.name != s.reqs[j].row.name;
      }
    }
  }

  /**
   * Once a key has a recorded success, every later caller replays exactly that row: no run changes it,
   * claims the key again, or settles anything more for the key.
   */
  lemma {:induction false} SuccessIsFinal(s: State, steps: seq<Step>, i: nat)
    requires Inv(s) && ValidRun(s, steps) && i < |s.reqs| && s.reqs[i].row.status == Succeeded
    ensures |s.reqs| <= |Exec(s, steps).reqs| && Exec(s, steps).reqs[i] == s.reqs[i]
    ensures UsageOf(Exec(s, steps).usage, i) == UsageOf(s.usage, i)
    ensures forall j :: |s.reqs| <= j < |Exec(s, steps).reqs| ==> Exec(s, steps).reqs[j].row.asked != s.reqs[i].row.asked
    ensures forall j :: 0 <= j < |s.reqs| && s.reqs[j].row.asked == s.reqs[i].row.asked ==>
              Settled1(Exec(s, steps).reqs[j]) == Settled1(s.reqs[j])
    decreases |steps|
  {
    if steps != [] {
      var s' := Next(s, steps[0]);
      SuccessStep(s, steps[0], i);
      StepKeepsInv(s, steps[0]);
      SuccessIsFinal(s', steps[1..], i);
      forall j | |s.reqs| <= j < |Exec(s, steps).reqs|
        ensures Exec(s, steps).reqs[j].row.asked != s.reqs[i].row.asked
      {
        if j < |s'.reqs| {
          AskedIsKept(s', steps[1..], j);
        }
      }
    }
  }

  lemma {:induction false} AskedIsKept(s: State, steps: seq<Step>, j: nat)
    requires ValidRun(s, steps) && j < |s.reqs|
    ensures j < |Exec(s, steps).reqs| && Exec(s, steps).reqs[j].row.asked == s.reqs[j].row.asked
    decreases |steps|
  {
    if steps != [] {
      AskedIsKept(Next(s, steps[0]), steps[1..], j);
    }
  }

  lemma TerminalStep(s: State, st: Step, i: nat)
    requires Inv(s) && Enabled(s, st) && i < |s.reqs| && Terminal(s.reqs[i].row.status)
    ensures var r := Next(s, st).reqs[i];
            && r.row.(name := s.reqs[i].row.name) == s.reqs[i].row && r.proc == s.reqs[i].proc
            && Settled1(r) == Settled1(s.reqs[i]) && UsageOf(Next(s, st).usage, i) == UsageOf(s.usage, i)
  {
    assert RequestInv(s.reqs[i], UsageOf(s.usage, i));
    if st.On? {
      UsageOfRows(s.usage, st.id, UsageCharges(s.reqs[st.id], st.act), i);
      assert UsageOf(s.usage, i) + [] == UsageOf(s.usage, i);
    }
  }

  /**
   * A terminal request, and so every request whose key was moved aside, is never settled or recorded again: no
   * run changes anything of its row but its name, settles anything for it, or adds to its usage.
   */
  lemma {:induction false} TerminalIsInert(s: State, steps: seq<Step>, i: nat)
    requires Inv(s) && ValidRun(s, steps) && i < |s.reqs| && Terminal(s.reqs[i].row.status)
    ensures var t := Exec(s, steps);
            && i < |t.reqs| && t.reqs[i].row.(name := s.reqs[i].row.name) == s.reqs[i].row
            && Settled1(t.reqs[i]) == Settled1(s.reqs[i]) && UsageOf(t.usage, i) == UsageOf(s.usage, i)
    decreases |steps|
  {
    if steps != [] {
      TerminalStep(s, steps[0], i);
      StepKeepsInv(s, steps[0]);
      TerminalIsInert(Next(s, steps[0]), steps[1..], i);
    }
  }

  // --- Undisturbed runs: the wallet and the usage ledger agree to the unit ----------------------------

  /** A hold expiring under a running request, the other way the two books part. */
  predicate ExpiresEarly(s: State, st: Step)
    requires Enabled(s, st)
  {
    st.On? && st.act == ExpireHold && s.reqs[st.id].proc.Some?
  }

  predicate Undisturbed(s: State, steps: seq<Step>)
    requires ValidRun(s, steps)
    decreases |steps|
  {
    steps == [] || (!LosesRecord(s, steps[0]) && !ExpiresEarly(s, steps[0]) && Undisturbed(Next(s, steps[0]), steps[1..]))
  }

  /** Requests still on their way hold their reservation open; recorded successes were paid for. */
  predicate Funded(r: Request) {
    && !Stranded(r)
    && (r.row.status == Succeeded || AboutToRecord(r) ==> Spent(r))
    && (r.proc.Some? && (r.proc.value in {Held, Ready, Flagged, Walking} || r.proc.value.Answered?) ==>
          r.hold.Some? && r.hold.value.status == Open)
  }

  predicate AllFunded(s: State) {
    forall i :: 0 <= i < |s.reqs| ==> Funded(s.reqs[i])
  }

  lemma FundedStep(s: State, st: Step)
    requires Inv(s) && Enabled(s, st) && AllFunded(s) && !LosesRecord(s, st) && !ExpiresEarly(s, st)
    ensures AllFunded(Next(s, st))
  {
    var s' := Next(s, st);
    forall i | 0 <= i < |s'.reqs|
      ensures Funded(s'.reqs[i])
    {
      if i < |s.reqs| {
        assert RequestInv(s.reqs[i], UsageOf(s.usage, i));
        StrandedExactlyByLoss(s, st, i);
      }
    }
  }

  lemma {:induction false} UndisturbedRunIsFunded(s: State, steps: seq<Step>)
    requires Inv(s) && ValidRun(s, steps) && Undisturbed(s, steps) && AllFunded(s)
    ensures AllFunded(Exec(s, steps))
    decreases |steps|
  {
    if steps != [] {
      FundedStep(s, steps[0]);
      StepKeepsInv(s, steps[0]);
      UndisturbedRunIsFunded(Next(s, steps[0]), steps[1..]);
    }
  }

  lemma {:induction false} FundedBooks(reqs: seq<Request>)
    requires forall i :: 0 <= i < |reqs| ==> Funded(reqs[i]) && reqs[i].proc.None?
    ensures UnrecordedTotal(reqs) == 0 && UnpaidTotal(reqs) == 0
  {
    if reqs != [] {
      FundedBooks(reqs[..|reqs| - 1]);
    }
  }

  /** With no lost record and no early expiry, whenever nothing is in flight the two books are equal. */
  lemma UndisturbedBooksAgree(steps: seq<Step>)
    requires ValidRun(INIT, steps) && Undisturbed(INIT, steps)
    requires forall i :: 0 <= i < |Exec(INIT, steps).reqs| ==> Exec(INIT, steps).reqs[i].proc.None?
    ensures UsageTotal(Exec(INIT, steps).usage) == SettledTotal(Exec(INIT, steps).reqs)
  {
    UndisturbedRunIsFunded(INIT, steps);
    BooksInEveryReachableState(steps);
    FundedBooks(Exec(INIT, steps).reqs);
  }
}
