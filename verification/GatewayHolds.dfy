/**
 * What a run's own steps say of one request's hold: when it expires under a request that goes on to succeed, and when
 * a terminal request leaves it open.
 */
module GatewayHolds {
  import opened Text
  import opened Errors
  import opened CreditLedger
  import opened GatewayLifecycle
  import opened GatewaySettlement

  function HoldOf(s: State, i: nat): Option<Hold> {
    if i < |s.reqs| then s.reqs[i].hold else None
  }

  predicate HoldExpired(s: State, i: nat) {
    HoldOf(s, i).Some? && HoldOf(s, i).value.status == Expired
  }

  // --- Successes nobody paid for -------------------------------------------------------------------------

  /** A hold has expired exactly when a step of the run was its expiry. */
  lemma {:induction false} ExpiredExactlyByItsStep(s: State, steps: seq<Step>, i: nat)
    requires ValidRun(s, steps)
    ensures HoldExpired(Exec(s, steps), i) <==> HoldExpired(s, i) || On(i, ExpireHold) in steps
    decreases |steps|
  {
    if steps != [] {
      assert HoldExpired(Next(s, steps[0]), i) <==> HoldExpired(s, i) || steps[0] == On(i, ExpireHold);
      ExpiredExactlyByItsStep(Next(s, steps[0]), steps[1..], i);
      assert steps == [steps[0]] + steps[1..];
    }
  }

  /**
   * A recorded success was settled for exactly its charge if and only if its hold did not expire on the way, or the
   * charge is zero. An expiry that comes after the settlement does not exist: a settled hold cannot expire.
   */
  lemma SuccessIsPaidIff(steps: seq<Step>, i: nat)
    requires ValidRun(INIT, steps) && i < |Exec(INIT, steps).reqs| && Exec(INIT, steps).reqs[i].row.status == Succeeded
    ensures var r := Exec(INIT, steps).reqs[i];
            && (Settled1(r) == r.row.charged <==> r.row.charged == 0 || On(i, ExpireHold) !in steps)
            && (Settled1(r) == 0 <==> r.row.charged == 0 || On(i, ExpireHold) in steps)
  {
    RowsInEveryReachableState(steps, i);
    ExpiredExactlyByItsStep(INIT, steps, i);
  }

  /** The only request of the table, with its hold just expired, can still be answered and recorded at full price. */
  lemma AnsweredUnpaid(key: string, price: nat, last: State) returns (steps: seq<Step>)
    requires 0 < price
    requires last == State([Request(Row(key, key, Succeeded, None, price, price, true), Some(Hold(price, Expired, 0)), None)], [Usage(0, price)], {})
    ensures var walking := Request(Row(key, key, Running, None, price, 0, true), Some(Hold(price, Expired, 0)), Some(Walking));
            ValidRun(State([walking], [], {}), steps) && Exec(State([walking], [], {}), steps) == last
    ensures steps == [On(0, Answer(price)), On(0, SettleHold), On(0, RecordSuccess)]
  {
    var walking := Request(Row(key, key, Running, None, price, 0, true), Some(Hold(price, Expired, 0)), Some(Walking));
    var paid := walking.(proc := Some(Paid(price)));
    var s := State([paid], [], {});
    assert Rows(0, [price]) == [Usage(0, price)];
    assert Next(s, On(0, RecordSuccess)) == last;
    Prepend(s, On(0, RecordSuccess), []);
    steps := [On(0, RecordSuccess)];
    assert steps == [On(0, RecordSuccess)] + [];
    steps := Quiet(walking.(proc := Some(Answered(price))), SettleHold, paid, steps, last);
    steps := Quiet(walking, Answer(price), walking.(proc := Some(Answered(price))), steps, last);
  }

  function UnpaidSuccess(key: string, price: nat): State {
    State([Request(Row(key, key, Succeeded, None, price, price, true), Some(Hold(price, Expired, 0)), None)], [Usage(0, price)], {})
  }

  function UnpaidRun(key: string, price: nat): seq<Step> {
    [Claim(key, price), On(0, ReserveHold), On(0, NoteHold)]
    + [On(0, StartWalk), On(0, ExpireHold), On(0, Answer(price)), On(0, SettleHold), On(0, RecordSuccess)]
  }

  /** The walk starts, and the hold expires under it. */
  lemma ExpiresUnderWay(key: string, price: nat) returns (steps: seq<Step>)
    requires 0 < price
    ensures var ready := Request(Row(key, key, Reserved, None, price, 0, true), Some(Hold(price, Open, 0)), Some(Ready));
            ValidRun(State([ready], [], {}), steps) && Exec(State([ready], [], {}), steps) == UnpaidSuccess(key, price)
    ensures steps == [On(0, StartWalk), On(0, ExpireHold), On(0, Answer(price)), On(0, SettleHold), On(0, RecordSuccess)]
  {
    var ready := Request(Row(key, key, Reserved, None, price, 0, true), Some(Hold(price, Open, 0)), Some(Ready));
    var walking := Request(Row(key, key, Running, None, price, 0, true), Some(Hold(price, Open, 0)), Some(Walking));
    var last := UnpaidSuccess(key, price);
    steps := AnsweredUnpaid(key, price, last);
    steps := Quiet(walking, ExpireHold, walking.(hold := Some(Hold(price, Expired, 0))), steps, last);
    steps := Quiet(ready, StartWalk, walking, steps, last);
  }

  /** The run, for every key and price: a success charged in full, for which nothing was settled. */
  lemma ChargedWithoutSettlement(key: string, price: nat)
    requires 0 < price
    ensures ValidRun(INIT, UnpaidRun(key, price)) && |Exec(INIT, UnpaidRun(key, price)).reqs| == 1
    ensures var r := Exec(INIT, UnpaidRun(key, price)).reqs[0];
            r.row.status == Succeeded && r.row.charged == price && Settled1(r) == 0
    ensures UsageTotal(Exec(INIT, UnpaidRun(key, price)).usage) == price
  {
    var ready := Request(Row(key, key, Reserved, None, price, 0, true), Some(Hold(price, Open, 0)), Some(Ready));
    var steps := ExpiresUnderWay(key, price);
    steps := FromTheStart(key, price, NoteHold, ready, steps, UnpaidSuccess(key, price));
    assert [Usage(0, price)][..0] == [];
  }

  /** A run of the only request, from its claim and reservation through one more act. */
  lemma FromTheStart(key: string, price: nat, act: Act, r: Request, rest: seq<Step>, last: State) returns (steps: seq<Step>)
    requires 0 < price
    requires var held := Request(Row(key, key, Pending, None, price, 0, false), Some(Hold(price, Open, 0)), Some(Held));
             CanAct(held, act) && After(held, act) == r && UsageCharges(held, act) == []
    requires ValidRun(State([r], [], {}), rest) && Exec(State([r], [], {}), rest) == last
    ensures ValidRun(INIT, steps) && Exec(INIT, steps) == last
    ensures steps == [Claim(key, price), On(0, ReserveHold), On(0, act)] + rest
  {
    var claimed := Request(Row(key, key, Pending, None, price, 0, false), None, Some(Claimed));
    var held := claimed.(hold := Some(Hold(price, Open, 0)), proc := Some(Held));
    steps := Quiet(held, act, r, rest, last);
    steps := Quiet(claimed, ReserveHold, held, steps, last);
    assert INIT.reqs + [claimed] == [claimed];
    Prepend(INIT, Claim(key, price), steps);
    steps := [Claim(key, price)] + steps;
  }

  // --- Holds nobody points at --------------------------------------------------------------------------

  /** Reserved, and no longer on the way to a note of it. */
  predicate NoteGone(s: State, i: nat) {
    i < |s.reqs| && s.reqs[i].hold.Some? && !s.reqs[i].row.noted && s.reqs[i].proc != Some(Held)
  }

  /** The two ways to lose the note of a reservation: its write fails, or its process stops first. */
  predicate LosesNote(s: State, st: Step, i: nat)
    requires Enabled(s, st)
  {
    st.On? && st.id == i && st.act in {LoseNote, Crash} && s.reqs[i].proc == Some(Held)
  }

  predicate NoteIsLost(s: State, steps: seq<Step>, i: nat)
    requires ValidRun(s, steps)
    decreases |steps|
  {
    steps != [] && (LosesNote(s, steps[0], i) || NoteIsLost(Next(s, steps[0]), steps[1..], i))
  }

  lemma NoteGoneExactlyByLoss(s: State, st: Step, i: nat)
    requires Inv(s) && Enabled(s, st)
    ensures NoteGone(Next(s, st), i) <==> NoteGone(s, i) || LosesNote(s, st, i)
  {
    if i < |s.reqs| {
      assert RequestInv(s.reqs[i], UsageOf(s.usage, i));
    }
  }

  lemma {:induction false} NoteGoneIffLost(s: State, steps: seq<Step>, i: nat)
    requires Inv(s) && ValidRun(s, steps)
    ensures NoteGone(Exec(s, steps), i) <==> NoteGone(s, i) || NoteIsLost(s, steps, i)
    decreases |steps|
  {
    if steps != [] {
      NoteGoneExactlyByLoss(s, steps[0], i);
      StepKeepsInv(s, steps[0]);
      NoteGoneIffLost(Next(s, steps[0]), steps[1..], i);
    }
  }

  /**
   * "A reservation is never left open", made exact over whole runs: the hold of a terminal request is open if and only
   * if a step of the run lost the note of it, and it has not expired since.
   */
  lemma FailureLeavesHoldOpenIff(steps: seq<Step>, i: nat)
    requires ValidRun(INIT, steps) && i < |Exec(INIT, steps).reqs| && Terminal(Exec(INIT, steps).reqs[i].row.status)
    ensures var hold := Exec(INIT, steps).reqs[i].hold;
            hold.Some? && hold.value.status == Open <==> NoteIsLost(INIT, steps, i) && On(i, ExpireHold) !in steps
  {
    RunKeepsInv(INIT, steps);
    var s := Exec(INIT, steps);
    assert RequestInv(s.reqs[i], UsageOf(s.usage, i));
    NoteGoneIffLost(INIT, steps, i);
    ExpiredExactlyByItsStep(INIT, steps, i);
  }

  /** Until then nothing closes it: not a later call for the key, not a sweep. */
  lemma OpenHoldOfATerminalRequest(s: State, st: Step, i: nat)
    requires Inv(s) && Enabled(s, st) && i < |s.reqs| && Terminal(s.reqs[i].row.status)
    requires s.reqs[i].hold.Some? && s.reqs[i].hold.value.status == Open
    ensures !s.reqs[i].row.noted
    ensures Closed(Next(s, st).reqs[i]) <==> st == On(i, ExpireHold)
  {
    assert RequestInv(s.reqs[i], UsageOf(s.usage, i));
  }

  function LeftOpen(key: string, price: nat, cls: FailureClass): State {
    State([Request(FailedRow(Row(key, key, Pending, None, price, 0, false), cls), Some(Hold(price, Open, 0)), None)], [], {})
  }

  /** From the end of a process that holds no note, to the failed record. */
  lemma RecordsTheFailure(key: string, price: nat, pc: Pc) returns (steps: seq<Step>)
    requires (pc.Refused? || pc.Given?) && (pc.Given? ==> !pc.usageRow)
    ensures var r := Request(Row(key, key, Pending, None, price, 0, false), Some(Hold(price, Open, 0)), Some(pc));
            ValidRun(State([r], [], {}), steps) && Exec(State([r], [], {}), steps) == LeftOpen(key, price, pc.cls)
  {
    var s := State([Request(Row(key, key, Pending, None, price, 0, false), Some(Hold(price, Open, 0)), Some(pc))], [], {});
    assert Next(s, On(0, RecordFailure)) == LeftOpen(key, price, pc.cls);
    Prepend(s, On(0, RecordFailure), []);
    steps := [On(0, RecordFailure)];
    assert steps == [On(0, RecordFailure)] + [];
  }

  /** A run, for every key and price, in which the write of the note fails. */
  lemma HoldLeftOpenByFault(key: string, price: nat) returns (steps: seq<Step>)
    requires 0 < price
    ensures ValidRun(INIT, steps) && Exec(INIT, steps) == LeftOpen(key, price, Unknown)
  {
    var held := Request(Row(key, key, Pending, None, price, 0, false), Some(Hold(price, Open, 0)), Some(Held));
    steps := RecordsTheFailure(key, price, Refused(Unknown));
    steps := FromTheStart(key, price, LoseNote, held.(proc := Some(Refused(Unknown))), steps, LeftOpen(key, price, Unknown));
  }

  /** And one in which the process stops before that write, and a sweep records the end. */
  lemma HoldLeftOpenByStop(key: string, price: nat) returns (steps: seq<Step>)
    requires 0 < price
    ensures ValidRun(INIT, steps) && Exec(INIT, steps) == LeftOpen(key, price, Timeout)
  {
    var stopped := Request(Row(key, key, Pending, None, price, 0, false), Some(Hold(price, Open, 0)), None);
    var last, giving := LeftOpen(key, price, Timeout), stopped.(proc := Some(Giving(Timeout, false)));
    steps := RecordsTheFailure(key, price, Given(Timeout, false));
    steps := Quiet(giving, ReleaseHold, stopped.(proc := Some(Given(Timeout, false))), steps, last);
    steps := Quiet(stopped, Sweep, giving, steps, last);
    steps := FromTheStart(key, price, Crash, stopped, steps, last);
  }
}
