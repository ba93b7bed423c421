/** The wallet's side of a request: one hold, opened once and closed once. */
module CreditLedger {

  datatype HoldStatus = Open | Settled | Released | Expired

  datatype Hold = Hold(estimate: nat, status: HoldStatus, settled: nat)

  /** A ledger call either committed (possibly as a no-op) or threw without changing the hold. */
  datatype LedgerResult = Committed(hold: Hold) | Conflict

  /** What every stored hold satisfies: nothing is spent unless settled, and never above the estimate. */
  predicate ValidHold(h: Hold) {
    && 0 < h.estimate
    && h.settled <= h.estimate
    && (h.status != Settled ==> h.settled == 0)
  }

  /** A hold that is no longer open is left exactly as it is: a second settlement is a no-op, whatever it asks for. */
  function Settle(h: Hold, actual: nat): (r: LedgerResult)
    requires ValidHold(h)
    ensures r.Committed? ==> ValidHold(r.hold) && r.hold.status != Open && r.hold.estimate == h.estimate
    ensures r.Conflict? <==> h.status == Open && actual > h.estimate
    ensures r.Committed? && h.status != Open ==> r.hold == h
    ensures r.Committed? && h.status == Open ==> r.hold.status == Settled && r.hold.settled == actual
  {
    if h.status != Open then Committed(h)
    else if actual > h.estimate then Conflict
    else Committed(h.(status := Settled, settled := actual))
  }

  /** Releasing (or expiring) gives the whole hold back, and is likewise a no-op on a closed one. */
  function Release(h: Hold, target: HoldStatus): (r: Hold)
    requires ValidHold(h) && target in {Released, Expired}
    ensures ValidHold(r) && r.status != Open && r.estimate == h.estimate
    ensures r.settled == h.settled
    ensures h.status != Open ==> r == h
    ensures h.status == Open ==> r.status == target
  {
    if h.status != Open then h else h.(status := target)
  }

  datatype Closing = SettleFor(amount: nat) | GiveBack(target: HoldStatus)

  /** The hold after any sequence of settle, release and expire calls, in whatever order they arrive. */
  function CloseAll(h: Hold, calls: seq<Closing>): (r: Hold)
    requires ValidHold(h)
    requires forall i :: 0 <= i < |calls| && calls[i].GiveBack? ==> calls[i].target in {Released, Expired}
    ensures ValidHold(r)
    decreases |calls|
  {
    if calls == [] then h
    else
      var next := match calls[0]
                  case SettleFor(a) => (match Settle(h, a) case Committed(h') => h' case Conflict => h)
                  case GiveBack(t) => Release(h, t);
      CloseAll(next, calls[1..])
  }

  /** Once closed, closed for good with the same amount: no interleaving of callers can move it again. */
  lemma {:induction false} ClosedIsFinal(h: Hold, calls: seq<Closing>)
    requires ValidHold(h) && h.status != Open
    requires forall i :: 0 <= i < |calls| && calls[i].GiveBack? ==> calls[i].target in {Released, Expired}
    ensures CloseAll(h, calls) == h
    decreases |calls|
  {
    if calls != [] {
      ClosedIsFinal(h, calls[1..]);
    }
  }

  /** The first call that can close an open hold decides it; everything after is a no-op. */
  lemma FirstClosingWins(h: Hold, first: Closing, rest: seq<Closing>)
    requires ValidHold(h) && h.status == Open
    requires first.GiveBack? ==> first.target in {Released, Expired}
    requires first.SettleFor? ==> first.amount <= h.estimate
    requires forall i :: 0 <= i < |rest| && rest[i].GiveBack? ==> rest[i].target in {Released, Expired}
    ensures CloseAll(h, [first] + rest) ==
            match first
            case SettleFor(a) => Hold(h.estimate, Settled, a)
            case GiveBack(t) => Hold(h.estimate, t, 0)
  {
    var calls := [first] + rest;
    assert calls[1..] == rest;
    var closed := match first
                  case SettleFor(a) => Hold(h.estimate, Settled, a)
                  case GiveBack(t) => Hold(h.estimate, t, 0);
    ClosedIsFinal(closed, rest);
  }
}
