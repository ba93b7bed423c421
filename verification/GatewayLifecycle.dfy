/**
 * The AI request lifecycle as a transition system. One step is one database or ledger transaction of
 * one process; any number of callers interleave, and a process may stop between any two steps.
 */
module GatewayLifecycle {
  import opened Text
  import opened Errors
  import opened CreditLedger

  datatype Status = Pending | Reserved | Running | Succeeded | Failed | TimedOut | ModerationBlocked

  /**
   * A request row. `name` is the unique idempotency-key column; `asked` remembers the key the caller
   * sent, which a rename does not change; `noted` says whether the reservation id was recorded.
   */
  datatype Row = Row(name: string, asked: string, status: Status, failure: Option<FailureClass>,
                     estimate: nat, charged: nat, noted: bool)

  /** Where the process that owns a request stands: the call it is about to make. */
  datatype Pc =
    | Claimed                                   // ledger.reserve
    | Held                                      // write RESERVED and the reservation id
    | Refused(cls: FailureClass)                // record the failure, without a release
    | Ready                                     // moderate, or start the walk
    | Flagged                                   // release, for moderation
    | FlagReleased                              // write MODERATION_BLOCKED
    | Walking                                   // provider calls
    | Answered(charge: nat)                     // ledger.settle
    | Paid(charge: nat)                         // write SUCCEEDED and the usage row
    | Giving(cls: FailureClass, usageRow: bool) // ledger.release
    | Given(cls: FailureClass, usageRow: bool)  // record the failure

  /** A request: its row, its reservation (keyed by the request, so at most one), its process if one runs. */
  datatype Request = Request(row: Row, hold: Option<Hold>, proc: Option<Pc>)

  datatype Usage = Usage(request: nat, charged: nat)

  /** `tokens`: reads of a row as retryable, any of which some caller may still act on by moving its key aside. */
  datatype State = State(reqs: seq<Request>, usage: seq<Usage>, tokens: set<(nat, string)>)

  const INIT := State([], [], {})

  /**
   * What a process, the sweep, the hold expiry or a crash does to one request. The ledger re-reads a hold after the
   * transaction that moved it: if that read throws, the move stands and its caller takes it for failed. So `LoseNote`
   * is a failed write of the reservation id, or a reservation whose re-read threw; `RecordFault` a failed write of the
   * success, or a settlement whose re-read threw; `SettleFault` a settlement that did not commit.
   */
  datatype Act =
    | ReserveHold
    | RefuseReserve(cls: FailureClass)
    | NoteHold
    | LoseNote
    | Flag
    | ReleaseFlagged
    | RecordBlocked
    | StartWalk
    | Answer(charge: nat)
    | GiveUp(cls: FailureClass, usageRow: bool)
    | SettleHold
    | SettleFault
    | RecordSuccess
    | RecordFault
    | ReleaseHold
    | RecordFailure
    | Crash
    | Sweep
    | ExpireHold

  datatype Step =
    | Claim(key: string, estimate: nat)
    | ReadRetryable(id: nat, key: string)
    | Supersede(id: nat, key: string)
    | On(id: nat, act: Act)

  predicate Terminal(s: Status) {
    s in {Succeeded, Failed, TimedOut, ModerationBlocked}
  }

  /** Terminal, not a success, and not a verdict a re-run would repeat: the only rows whose key is ever freed. */
  predicate Retryable(row: Row) {
    && row.status in {Failed, TimedOut}
    && row.failure.Some?
    && !IsDeterministic(row.failure.value)
  }

  function SupersededName(key: string, id: nat): (name: string)
    ensures |key| < |name|
  {
    key + "#superseded:" + NatText(id)
  }

  predicate NameTaken(s: State, name: string) {
    exists i :: 0 <= i < |s.reqs| && s.reqs[i].row.name == name
  }

  predicate HoldOk(r: Request) {
    r.hold.Some? && ValidHold(r.hold.value)
  }

  predicate CanAct(r: Request, act: Act) {
    match act
    case ReserveHold => r.proc == Some(Claimed) && r.hold.None? && 0 < r.row.estimate
    case RefuseReserve(cls) => r.proc == Some(Claimed) && cls in {QuotaExceeded, Unknown}
    case NoteHold => r.proc == Some(Held)
    case LoseNote => r.proc == Some(Held)
    case Flag => r.proc == Some(Ready)
    case ReleaseFlagged => r.proc == Some(Flagged) && HoldOk(r)
    case RecordBlocked => r.proc == Some(FlagReleased)
    case StartWalk => r.proc == Some(Ready)
    case Answer(_) => r.proc == Some(Walking)
    case GiveUp(_, _) => r.proc == Some(Walking)
    case SettleHold => r.proc.Some? && r.proc.value.Answered? && HoldOk(r)
    case SettleFault => r.proc.Some? && r.proc.value.Answered?
    case RecordSuccess => r.proc.Some? && r.proc.value.Paid? && r.proc.value.charge <= r.row.estimate
    case RecordFault => r.proc.Some? && r.proc.value.Paid?
    case ReleaseHold => r.proc.Some? && r.proc.value.Giving? && (r.row.noted ==> HoldOk(r))
    case RecordFailure => r.proc.Some? && (r.proc.value.Given? || r.proc.value.Refused?)
    case Crash => r.proc.Some?
    case Sweep => r.proc.None? && !Terminal(r.row.status)
    case ExpireHold => HoldOk(r) && r.hold.value.status == Open
  }

  predicate Enabled(s: State, st: Step) {
    match st
    case Claim(key, _) => !NameTaken(s, key)
    case ReadRetryable(id, key) => id < |s.reqs| && s.reqs[id].row.name == key && Retryable(s.reqs[id].row)
    case Supersede(id, key) => (id, key) in s.tokens && id < |s.reqs|
    case On(id, act) => id < |s.reqs| && CanAct(s.reqs[id], act)
  }

  function FailedRow(row: Row, cls: FailureClass): Row {
    row.(status := if cls == Timeout then TimedOut else Failed, failure := Some(cls), charged := 0)
  }

  function After(r: Request, act: Act): Request
    requires CanAct(r, act)
  {
    match act
    case ReserveHold => r.(hold := Some(Hold(r.row.estimate, Open, 0)), proc := Some(Held))
    case RefuseReserve(cls) => r.(proc := Some(Refused(cls)))
    case NoteHold => r.(row := r.row.(status := Reserved, noted := true), proc := Some(Ready))
    case LoseNote => r.(proc := Some(Refused(Unknown)))
    case Flag => r.(proc := Some(Flagged))
    case ReleaseFlagged => r.(hold := Some(Release(r.hold.value, Released)), proc := Some(FlagReleased))
    case RecordBlocked =>
      r.(row := r.row.(status := ModerationBlocked, failure := Some(ContentFiltered), charged := 0), proc := None)
    case StartWalk => r.(row := r.row.(status := Running), proc := Some(Walking))
    case Answer(charge) => r.(proc := Some(Answered(charge)))
    case GiveUp(cls, usageRow) => r.(proc := Some(Giving(cls, usageRow)))
    case SettleHold =>
      (match Settle(r.hold.value, r.proc.value.charge)
       case Committed(h) => r.(hold := Some(h), proc := Some(Paid(r.proc.value.charge)))
       case Conflict => r.(proc := Some(Giving(Unknown, true))))
    case SettleFault => r.(proc := Some(Giving(Unknown, true)))
    case RecordSuccess => r.(row := r.row.(status := Succeeded, charged := r.proc.value.charge), proc := None)
    case RecordFault => r.(proc := Some(Giving(Unknown, true)))
    case ReleaseHold =>
      r.(hold := if r.row.noted then Some(Release(r.hold.value, Released)) else r.hold,
         proc := Some(Given(r.proc.value.cls, r.proc.value.usageRow)))
    case RecordFailure => r.(row := FailedRow(r.row, r.proc.value.cls), proc := None)
    case Crash => r.(proc := None)
    case Sweep => r.(proc := Some(Giving(Timeout, false)))
    case ExpireHold => r.(hold := Some(Release(r.hold.value, Expired)))
  }

  /** The charges an act adds to the usage ledger: its own for a success, zero for some failures. */
  function UsageCharges(r: Request, act: Act): seq<nat>
    requires CanAct(r, act)
  {
    match act
    case RecordSuccess => [r.proc.value.charge]
    case RecordFailure => if r.proc.value.Given? && r.proc.value.usageRow then [0] else []
    case _ => []
  }

  function Rows(id: nat, charges: seq<nat>): seq<Usage> {
    seq(|charges|, i requires 0 <= i < |charges| => Usage(id, charges[i]))
  }

  function Next(s: State, st: Step): (s': State)
    requires Enabled(s, st)
    ensures |s.reqs| <= |s'.reqs| && s.tokens <= s'.tokens
  {
    match st
    case Claim(key, estimate) =>
      s.(reqs := s.reqs + [Request(Row(key, key, Pending, None, estimate, 0, false), None, Some(Claimed))])
    case ReadRetryable(id, key) => s.(tokens := s.tokens + {(id, key)})
    case Supersede(id, key) =>
      var r := s.reqs[id];
      var aside := SupersededName(key, id);
      // A row that lost its name matches nothing; a name already taken makes the update fail.
      if r.row.name != key || NameTaken(s, aside) then s
      else s.(reqs := s.reqs[id := r.(row := r.row.(name := aside))])
    case On(id, act) =>
      s.(reqs := s.reqs[id := After(s.reqs[id], act)], usage := s.usage + Rows(id, UsageCharges(s.reqs[id], act)))
  }

  predicate ValidRun(s: State, steps: seq<Step>)
    decreases |steps|
  {
    steps == [] || (Enabled(s, steps[0]) && ValidRun(Next(s, steps[0]), steps[1..]))
  }

  function Exec(s: State, steps: seq<Step>): State
    requires ValidRun(s, steps)
    decreases |steps|
  {
    if steps == [] then s else Exec(Next(s, steps[0]), steps[1..])
  }

  lemma {:induction false} RunsCompose(s: State, a: seq<Step>, b: seq<Step>)
    requires ValidRun(s, a) && ValidRun(Exec(s, a), b)
    ensures ValidRun(s, a + b) && Exec(s, a + b) == Exec(Exec(s, a), b)
    decreases |a|
  {
    if a == [] {
      assert a + b == b;
    } else {
      RunsCompose(Next(s, a[0]), a[1..], b);
      assert (a + b)[1..] == a[1..] + b;
    }
  }

  // --- The invariant -------------------------------------------------------------------------------

  /** The charges the usage ledger holds for one request, in order. */
  function UsageOf(usage: seq<Usage>, id: nat): seq<nat> {
    if usage == [] then []
    else
      var rest := UsageOf(usage[..|usage| - 1], id);
      if usage[|usage| - 1].request == id then rest + [usage[|usage| - 1].charged] else rest
  }

  lemma UsageOfAppend(usage: seq<Usage>, u: Usage, id: nat)
    ensures UsageOf(usage + [u], id) == if u.request == id then UsageOf(usage, id) + [u.charged] else UsageOf(usage, id)
  {
    assert (usage + [u])[..|usage|] == usage;
  }

  predicate NotSpent(r: Request) {
    r.hold.Some? && r.hold.value.status != Settled
  }

  /** Only its own expiry can have closed the hold. */
  predicate Untouched(r: Request) {
    r.hold.Some? && r.hold.value.status in {Open, Expired}
  }

  predicate Closed(r: Request) {
    r.hold.Some? && r.hold.value.status != Open
  }

  predicate Spent(r: Request) {
    r.hold.Some? && r.hold.value.status == Settled
  }

  /** The reservation of a request that has been, or is about to be, recorded with this charge. */
  predicate SpentAs(r: Request, charge: nat) {
    r.hold.Some? && (r.hold.value.status == Expired || (r.hold.value.status == Settled && r.hold.value.settled == charge))
  }

  predicate ProcOk(r: Request) {
    match r.proc
    case None => true
    case Some(pc) =>
      && !Terminal(r.row.status)
      && match pc
         case Claimed => r.hold.None? && !r.row.noted
         case Held => Untouched(r) && !r.row.noted
         case Refused(_) => !r.row.noted
         case Ready => Untouched(r) && r.row.noted
         case Flagged => Untouched(r) && r.row.noted
         case FlagReleased => NotSpent(r) && Closed(r) && r.row.noted
         case Walking => Untouched(r) && r.row.noted
         case Answered(_) => Untouched(r) && r.row.noted
         case Paid(charge) => r.row.noted && SpentAs(r, charge)
         case Giving(_, _) => true
         case Given(_, _) => r.row.noted ==> Closed(r)
  }

  predicate RequestInv(r: Request, charges: seq<nat>) {
    && (r.row.name == r.row.asked || (|r.row.asked| < |r.row.name| && Retryable(r.row)))
    && (r.row.status != Succeeded ==> r.row.charged == 0) && r.row.charged <= r.row.estimate
    && (r.hold.Some? ==> ValidHold(r.hold.value) && r.hold.value.estimate == r.row.estimate)
    && (r.row.noted ==> r.hold.Some?)
    && (r.hold.Some? && !r.row.noted ==> Untouched(r))
    && ProcOk(r)
    && (Terminal(r.row.status) && r.row.noted ==> Closed(r))
    && (r.row.status == Succeeded ==> r.row.noted && SpentAs(r, r.row.charged))
    && (r.row.status == ModerationBlocked ==> NotSpent(r))
    && (r.row.status in {Failed, TimedOut} ==> r.row.failure.Some?)
    && (!Terminal(r.row.status) ==> charges == [])
    && (r.row.status == Succeeded ==> charges == [r.row.charged])
    && (r.row.status in {Failed, TimedOut, ModerationBlocked} ==> charges == [] || charges == [0])
  }

  predicate UniqueNames(reqs: seq<Request>) {
    forall i, j :: 0 <= i < j < |reqs| ==> reqs[i].row.name != reqs[j].row.name
  }

  predicate Inv(s: State) {
    && UniqueNames(s.reqs)
    && (forall i :: 0 <= i < |s.reqs| ==> RequestInv(s.reqs[i], UsageOf(s.usage, i)))
    && (forall k :: 0 <= k < |s.usage| ==> s.usage[k].request < |s.reqs|)
    && (forall t :: t in s.tokens ==> t.0 < |s.reqs| && Retryable(s.reqs[t.0].row))
  }

  lemma {:induction usage} NoUsageBeforeClaim(usage: seq<Usage>, n: nat)
    requires forall k :: 0 <= k < |usage| ==> usage[k].request < n
    ensures UsageOf(usage, n) == []
  {
  }

  lemma ActKeepsRequestInv(r: Request, charges: seq<nat>, act: Act)
    requires RequestInv(r, charges) && CanAct(r, act)
    ensures RequestInv(After(r, act), charges + UsageCharges(r, act))
    ensures After(r, act).row.name == r.row.name && After(r, act).row.asked == r.row.asked
    ensures Terminal(r.row.status) ==> After(r, act).row == r.row && UsageCharges(r, act) == []
  {
  }

  lemma UsageOfRows(usage: seq<Usage>, id: nat, charges: seq<nat>, other: nat)
    requires |charges| <= 1
    ensures UsageOf(usage + Rows(id, charges), other) == UsageOf(usage, other) + (if other == id then charges else [])
  {
    if charges == [] {
      assert usage + Rows(id, charges) == usage;
    } else {
      assert Rows(id, charges) == [Usage(id, charges[0])];
      UsageOfAppend(usage, Usage(id, charges[0]), other);
    }
  }

  lemma SupersedeKeepsInv(s: State, id: nat, key: string)
    requires Inv(s) && Enabled(s, Supersede(id, key))
    ensures Inv(Next(s, Supersede(id, key)))
  {
    var s' := Next(s, Supersede(id, key));
    forall i | 0 <= i < |s'.reqs|
      ensures RequestInv(s'.reqs[i], UsageOf(s'.usage, i))
    {
      assert RequestInv(s.reqs[i], UsageOf(s.usage, i));
    }
  }

  lemma ClaimKeepsInv(s: State, key: string, estimate: nat)
    requires Inv(s) && Enabled(s, Claim(key, estimate))
    ensures Inv(Next(s, Claim(key, estimate)))
  {
    NoUsageBeforeClaim(s.usage, |s.reqs|);
  }

  lemma ActKeepsInv(s: State, id: nat, act: Act)
    requires Inv(s) && Enabled(s, On(id, act))
    ensures Inv(Next(s, On(id, act)))
  {
    var s' := Next(s, On(id, act));
    var charges := UsageCharges(s.reqs[id], act);
    forall i | 0 <= i < |s'.reqs|
      ensures RequestInv(s'.reqs[i], UsageOf(s'.usage, i))
      ensures s'.reqs[i].row.name == s.reqs[i].row.name
      ensures Retryable(s.reqs[i].row) ==> s'.reqs[i].row == s.reqs[i].row
    {
      UsageOfRows(s.usage, id, charges, i);
      assert RequestInv(s.reqs[i], UsageOf(s.usage, i));
      if i == id {
        ActKeepsRequestInv(s.reqs[i], UsageOf(s.usage, i), act);
      } else {
        assert UsageOf(s.usage, i) + [] == UsageOf(s.usage, i);
      }
    }
  }

  /** Every step of every process keeps the invariant. */
  lemma StepKeepsInv(s: State, st: Step)
    requires Inv(s) && Enabled(s, st)
    ensures Inv(Next(s, st))
  {
    match st {
      case Claim(key, estimate) => ClaimKeepsInv(s, key, estimate);
      case ReadRetryable(_, _) =>
      case Supersede(id, key) => SupersedeKeepsInv(s, id, key);
      case On(id, act) => ActKeepsInv(s, id, act);
    }
  }

  lemma {:induction false} RunKeepsInv(s: State, steps: seq<Step>)
    requires Inv(s) && ValidRun(s, steps)
    ensures Inv(Exec(s, steps))
    decreases |steps|
  {
    if steps != [] {
      StepKeepsInv(s, steps[0]);
      RunKeepsInv(Next(s, steps[0]), steps[1..]);
    }
  }
}
