/** Metric observations: one upsert per delivery, last observation wins, however deliveries arrive. */
module Observations {
  import opened Text

  /** The identity of a measurement: what was measured and for which window, not when or by which run. */
  datatype Measurement = Measurement(workspace: int, connection: int, subjectType: int, subject: string,
                                     metric: string, granularity: int, periodStart: int)

  datatype Figure = Figure(value: int, unit: int, periodEnd: int)

  datatype Provenance = Provenance(ingestedAt: int, kind: int, version: string, run: Option<int>)

  datatype Reading = Reading(of: Measurement, brand: int, observedAt: int, figure: Figure, origin: Provenance,
                             job: Option<int>, item: Option<int>)

  datatype Stored = Stored(brand: int, observedAt: int, figure: Figure, origin: Provenance,
                           job: Option<int>, item: Option<int>)

  type Table = map<Measurement, Stored>

  function Coalesce(a: Option<int>, b: Option<int>): Option<int> {
    if a.Some? then a else b
  }

  /** Whether the statement writes a row for this reading: a new row, or one at least as fresh as the stored one. */
  predicate Writes(t: Table, r: Reading) {
    r.of !in t || r.observedAt >= t[r.of].observedAt
  }

  /** One row of the statement. The brand is only ever inserted; links are filled in and never emptied. */
  function Apply(t: Table, r: Reading): Table {
    if r.of !in t then t[r.of := Stored(r.brand, r.observedAt, r.figure, r.origin, r.job, r.item)]
    else if r.observedAt < t[r.of].observedAt then t
    else
      var prior := t[r.of];
      t[r.of := Stored(prior.brand, r.observedAt, r.figure, r.origin, Coalesce(r.job, prior.job), Coalesce(r.item, prior.item))]
  }

  function Deliver(t: Table, rs: seq<Reading>): Table {
    if rs == [] then t else Apply(Deliver(t, rs[..|rs| - 1]), rs[|rs| - 1])
  }

  function Written(t: Table, rs: seq<Reading>): (n: nat)
    ensures n <= |rs|
  {
    if rs == [] then 0
    else
      var front := rs[..|rs| - 1];
      Written(t, front) + if Writes(Deliver(t, front), rs[|rs| - 1]) then 1 else 0
  }

  /** A row the statement already wrote comes up again: PostgreSQL aborts the whole statement. */
  predicate Collides(t: Table, rs: seq<Reading>, i: nat, j: nat)
    requires i < j < |rs|
  {
    rs[i].of == rs[j].of && Writes(Deliver(t, rs[..i]), rs[i])
  }

  datatype UpsertResult = Upserted(written: nat, untouched: nat) | MixedWorkspaces | CannotAffectTwice

  ghost predicate SomeCollision(t: Table, batch: seq<Reading>, n: nat)
    requires n <= |batch|
  {
    exists i, j :: 0 <= i < j < n && Collides(t, batch, i, j)
  }

  /** The keys the statement has written after its first n rows. */
  ghost predicate Wrote(t: Table, batch: seq<Reading>, n: nat, wrote: set<Measurement>)
    requires n <= |batch|
  {
    forall k :: k in wrote <==> exists j :: 0 <= j < n && batch[j].of == k && Writes(Deliver(t, batch[..j]), batch[j])
  }

  datatype Statement = Done(table: Table, written: nat) | Aborted

  lemma DeliverNext(t: Table, batch: seq<Reading>, i: nat)
    requires i < |batch|
    ensures Deliver(t, batch[..i + 1]) == Apply(Deliver(t, batch[..i]), batch[i])
    ensures Written(t, batch[..i + 1]) == Written(t, batch[..i]) + if Writes(Deliver(t, batch[..i]), batch[i]) then 1 else 0
  {
    assert batch[..i + 1][..i] == batch[..i];
  }

  lemma WroteNext(t: Table, batch: seq<Reading>, i: nat, wrote: set<Measurement>)
    requires i < |batch| && Wrote(t, batch, i, wrote)
    ensures Wrote(t, batch, i + 1, if Writes(Deliver(t, batch[..i]), batch[i]) then wrote + {batch[i].of} else wrote)
  {
  }

  lemma CollisionNext(t: Table, batch: seq<Reading>, i: nat, wrote: set<Measurement>)
    requires i < |batch| && Wrote(t, batch, i, wrote) && !SomeCollision(t, batch, i)
    ensures SomeCollision(t, batch, i + 1) <==> batch[i].of in wrote
  {
    if batch[i].of in wrote {
      var j :| 0 <= j < i && batch[j].of == batch[i].of && Writes(Deliver(t, batch[..j]), batch[j]);
      assert Collides(t, batch, j, i);
    }
  }

  lemma EarlierCollision(t: Table, batch: seq<Reading>, n: nat)
    requires n <= |batch| && SomeCollision(t, batch, n)
    ensures SomeCollision(t, batch, |batch|)
  {
    var i, j :| 0 <= i < j < n && Collides(t, batch, i, j);
  }

  /** The statement, row by row against what it has written so far. */
  method WriteRows(t: Table, batch: seq<Reading>) returns (r: Statement)
    ensures r.Aborted? <==> SomeCollision(t, batch, |batch|)
    ensures r.Done? ==> r.table == Deliver(t, batch) && r.written == Written(t, batch)
  {
    var next, wrote, count := t, {}, 0;
    for i := 0 to |batch|
      invariant next == Deliver(t, batch[..i]) && count == Written(t, batch[..i])
      invariant Wrote(t, batch, i, wrote) && !SomeCollision(t, batch, i)
    {
      DeliverNext(t, batch, i);
      WroteNext(t, batch, i, wrote);
      CollisionNext(t, batch, i, wrote);
      if batch[i].of in wrote {
        EarlierCollision(t, batch, i + 1);
        return Aborted;
      }
      if Writes(next, batch[i]) {
        wrote, count := wrote + {batch[i].of}, count + 1;
      }
      next := Apply(next, batch[i]);
    }
    assert batch[..|batch|] == batch;
    return Done(next, count);
  }

  class ObservationStore {
    var rows: Table

    constructor ()
      ensures rows == map[]
    {
      rows := map[];
    }

    /** All of the batch or nothing. */
    method UpsertObservations(workspace: int, batch: seq<Reading>) returns (r: UpsertResult)
      modifies this
      ensures r.MixedWorkspaces? <==> exists i :: 0 <= i < |batch| && batch[i].of.workspace != workspace
      ensures r.CannotAffectTwice? <==> !r.MixedWorkspaces? && SomeCollision(old(rows), batch, |batch|)
      ensures !r.Upserted? ==> rows == old(rows)
      ensures r.Upserted? ==> rows == Deliver(old(rows), batch)
      ensures r.Upserted? ==> r.written == Written(old(rows), batch) && r.written + r.untouched == |batch|
    {
      for i := 0 to |batch|
        invariant forall k :: 0 <= k < i ==> batch[k].of.workspace == workspace
      {
        if batch[i].of.workspace != workspace {
          return MixedWorkspaces;
        }
      }
      var statement := WriteRows(rows, batch);
      if statement.Aborted? {
        return CannotAffectTwice;
      }
      rows := statement.table;
      return Upserted(statement.written, |batch| - statement.written);
    }
  }

  /** Distinct keys within a batch, which is what every caller sends, are never refused. */
  lemma DistinctKeysNeverCollide(t: Table, batch: seq<Reading>, i: nat, j: nat)
    requires i < j < |batch| && forall a, b :: 0 <= a < b < |batch| ==> batch[a].of != batch[b].of
    ensures !Collides(t, batch, i, j)
  {
  }

  lemma {:induction false} UndeliveredIsUntouched(t: Table, rs: seq<Reading>, k: Measurement)
    requires forall i :: 0 <= i < |rs| ==> rs[i].of != k
    ensures k in Deliver(t, rs) <==> k in t
    ensures k in t ==> Deliver(t, rs)[k] == t[k]
  {
    if rs != [] {
      UndeliveredIsUntouched(t, rs[..|rs| - 1], k);
    }
  }

  /** Which rows of a batch are new to the table it is delivered to, or at least as fresh as what is there. */
  function Accepts(t: Table, batch: seq<Reading>): set<nat> {
    set i: nat | i < |batch| && (batch[i].of !in t || batch[i].observedAt >= t[batch[i].of].observedAt)
  }

  lemma OneMoreAccepted(t: Table, front: seq<Reading>, last: Reading)
    ensures |Accepts(t, front + [last])| == |Accepts(t, front)| + if Writes(t, last) then 1 else 0
  {
    var batch, n: nat := front + [last], |front|;
    var before, now := Accepts(t, front), Accepts(t, batch);
    assert forall i :: 0 <= i < n ==> batch[i] == front[i];
    assert n !in before;
    assert now == if Writes(t, last) then before + {n} else before;
  }

  /** What a batch of distinct keys reports as written are just those rows. */
  lemma {:induction false} WrittenCountsTheAccepted(t: Table, batch: seq<Reading>)
    requires forall a, b :: 0 <= a < b < |batch| ==> batch[a].of != batch[b].of
    ensures Written(t, batch) == |Accepts(t, batch)|
  {
    if batch != [] {
      var front, last := batch[..|batch| - 1], batch[|batch| - 1];
      assert batch == front + [last];
      WrittenCountsTheAccepted(t, front);
      UndeliveredIsUntouched(t, front, last.of);
      OneMoreAccepted(t, front, last);
    }
  }

  // --- Batches do not matter ----------------------------------------------------------------------------

  lemma {:induction false} DeliverConcat(t: Table, a: seq<Reading>, b: seq<Reading>)
    ensures Deliver(t, a + b) == Deliver(Deliver(t, a), b)
    decreases |b|
  {
    if b == [] {
      assert a + b == a;
    } else {
      assert (a + b)[..|a + b| - 1] == a + b[..|b| - 1];
      DeliverConcat(t, a, b[..|b| - 1]);
    }
  }

  function Flatten(batches: seq<seq<Reading>>): seq<Reading> {
    if batches == [] then [] else Flatten(batches[..|batches| - 1]) + batches[|batches| - 1]
  }

  function DeliverAll(t: Table, batches: seq<seq<Reading>>): Table {
    if batches == [] then t else Deliver(DeliverAll(t, batches[..|batches| - 1]), batches[|batches| - 1])
  }

  /** However the readings were cut into batches, only the readings and their order matter. */
  lemma {:induction false} BatchingIsIrrelevant(t: Table, batches: seq<seq<Reading>>)
    ensures DeliverAll(t, batches) == Deliver(t, Flatten(batches))
  {
    if batches != [] {
      BatchingIsIrrelevant(t, batches[..|batches| - 1]);
      DeliverConcat(t, Flatten(batches[..|batches| - 1]), batches[|batches| - 1]);
    }
  }

  // --- Last observation wins ------------------------------------------------------------------------------

  /** The last delivery among those of a key that carry its greatest observation time. */
  ghost predicate Winner(rs: seq<Reading>, k: Measurement, i: nat) {
    && i < |rs| && rs[i].of == k
    && forall j :: 0 <= j < |rs| && rs[j].of == k ==>
         rs[j].observedAt <= rs[i].observedAt && (i < j ==> rs[j].observedAt < rs[i].observedAt)
  }

  /** What is stored for a key after any deliveries is its winner's figure, time and origin. */
  lemma {:induction false} StoredIsTheWinner(rs: seq<Reading>, k: Measurement) returns (i: nat)
    requires exists j :: 0 <= j < |rs| && rs[j].of == k
    ensures k in Deliver(map[], rs) && Winner(rs, k, i)
    ensures var s := Deliver(map[], rs)[k];
            s.observedAt == rs[i].observedAt && s.figure == rs[i].figure && s.origin == rs[i].origin
  {
    var front, last := rs[..|rs| - 1], rs[|rs| - 1];
    assert rs == front + [last];
    if exists j :: 0 <= j < |front| && front[j].of == k {
      i := StoredIsTheWinner(front, k);
      if last.of == k && last.observedAt >= front[i].observedAt {
        i := |front|;
      }
    } else {
      UnseenIsAbsent(front, k);
      i := |front|;
    }
  }

  lemma {:induction false} UnseenIsAbsent(rs: seq<Reading>, k: Measurement)
    requires forall j :: 0 <= j < |rs| ==> rs[j].of != k
    ensures k !in Deliver(map[], rs)
  {
    if rs != [] {
      UnseenIsAbsent(rs[..|rs| - 1], k);
    }
  }

  /** At least as fresh as everything delivered for its key before it. */
  ghost predicate Accepted(rs: seq<Reading>, k: Measurement, i: nat) {
    && i < |rs| && rs[i].of == k
    && forall j :: 0 <= j < i && rs[j].of == k ==> rs[j].observedAt <= rs[i].observedAt
  }

  datatype Link = JobLink | ItemLink

  function Linked(r: Reading, l: Link): Option<int> {
    if l.JobLink? then r.job else r.item
  }

  function StoredLink(s: Stored, l: Link): Option<int> {
    if l.JobLink? then s.job else s.item
  }

  ghost predicate Carries(rs: seq<Reading>, k: Measurement, l: Link, i: nat) {
    Accepted(rs, k, i) && Linked(rs[i], l).Some?
  }

  ghost predicate LastToCarry(rs: seq<Reading>, k: Measurement, l: Link, i: nat) {
    Carries(rs, k, l, i) && forall j: nat :: i < j ==> !Carries(rs, k, l, j)
  }

  lemma CarriedBefore(front: seq<Reading>, last: Reading, k: Measurement, l: Link)
    ensures forall i: nat :: i < |front| ==> (Carries(front + [last], k, l, i) <==> Carries(front, k, l, i))
  {
    forall i: nat | i < |front|
      ensures Accepted(front + [last], k, i) <==> Accepted(front, k, i)
    {
      assert forall j :: 0 <= j <= i ==> (front + [last])[j] == front[j];
    }
  }

  /** A delivery is accepted just when it is at least as fresh as what is stored by then. */
  lemma AcceptedIffFresh(front: seq<Reading>, last: Reading)
    ensures Accepted(front + [last], last.of, |front|) <==> Writes(Deliver(map[], front), last)
  {
    var rs, k := front + [last], last.of;
    if j :| 0 <= j < |front| && front[j].of == k {
      var w := StoredIsTheWinner(front, k);
      assert rs[w] == front[w];
      if Writes(Deliver(map[], front), last) {
        forall x | 0 <= x < |front| && rs[x].of == k
          ensures rs[x].observedAt <= last.observedAt
        {
          assert rs[x] == front[x];
        }
      }
    } else {
      UnseenIsAbsent(front, k);
      assert forall x :: 0 <= x < |front| ==> rs[x] == front[x];
    }
  }

  /** The stored brand is the one the key was first delivered with, whichever reading won since. */
  lemma {:induction false} StoredBrandIsTheFirst(rs: seq<Reading>, k: Measurement, i: nat)
    requires i < |rs| && rs[i].of == k && forall j :: 0 <= j < i ==> rs[j].of != k
    ensures k in Deliver(map[], rs) && Deliver(map[], rs)[k].brand == rs[i].brand
  {
    var front, last := rs[..|rs| - 1], rs[|rs| - 1];
    assert rs == front + [last];
    if i < |front| {
      StoredBrandIsTheFirst(front, k, i);
    } else {
      UnseenIsAbsent(front, k);
    }
  }

  /** This is the link of the last delivery that carries one, or none does. */
  ghost predicate IsLastCarried(rs: seq<Reading>, k: Measurement, l: Link, link: Option<int>) {
    && ((forall i: nat :: !Carries(rs, k, l, i)) ==> link == None)
    && (forall i: nat :: LastToCarry(rs, k, l, i) ==> link == Linked(rs[i], l))
  }

  lemma OneMoreDelivery(front: seq<Reading>, last: Reading, k: Measurement, l: Link, link: Option<int>)
    requires IsLastCarried(front, k, l, link)
    ensures IsLastCarried(front + [last], k, l, if Carries(front + [last], k, l, |front|) then Linked(last, l) else link)
  {
    var rs := front + [last];
    CarriedBefore(front, last, k, l);
    assert forall i: nat :: i > |front| ==> !Carries(rs, k, l, i);
    assert rs[|front|] == last;
    if !Carries(rs, k, l, |front|) {
      forall i: nat
        ensures LastToCarry(rs, k, l, i) ==> LastToCarry(front, k, l, i) && rs[i] == front[i]
      {
        if LastToCarry(rs, k, l, i) {
          assert i < |front| && Carries(front, k, l, i);
          forall j: nat | i < j
            ensures !Carries(front, k, l, j)
          {
            assert !Carries(rs, k, l, j);
          }
        }
      }
      if forall i: nat :: !Carries(rs, k, l, i) {
        forall i: nat
          ensures !Carries(front, k, l, i)
        {
          assert !Carries(rs, k, l, i);
        }
      }
    }
  }

  /** A stored link is that of the last accepted delivery that carried one; with no such delivery there is none. */
  lemma {:induction false} StoredLinkIsTheLastCarried(rs: seq<Reading>, k: Measurement, l: Link)
    requires exists j :: 0 <= j < |rs| && rs[j].of == k
    ensures k in Deliver(map[], rs) && IsLastCarried(rs, k, l, StoredLink(Deliver(map[], rs)[k], l))
  {
    var front, last := rs[..|rs| - 1], rs[|rs| - 1];
    assert rs == front + [last];
    AcceptedIffFresh(front, last);
    if exists j :: 0 <= j < |front| && front[j].of == k {
      StoredLinkIsTheLastCarried(front, k, l);
      OneMoreDelivery(front, last, k, l, StoredLink(Deliver(map[], front)[k], l));
    } else {
      UnseenIsAbsent(front, k);
      assert forall i: nat :: !Carries(front, k, l, i);
      OneMoreDelivery(front, last, k, l, None);
    }
  }

  /** Further deliveries never move a key's time backwards, never empty a link, and never move it to another brand. */
  lemma {:induction false} NothingRollsBack(t: Table, rs: seq<Reading>, k: Measurement)
    requires k in t
    ensures k in Deliver(t, rs)
    ensures var s := Deliver(t, rs)[k];
            && t[k].observedAt <= s.observedAt && s.brand == t[k].brand
            && (t[k].job.Some? ==> s.job.Some?) && (t[k].item.Some? ==> s.item.Some?)
            && (s.observedAt == t[k].observedAt && (forall r :: r in rs && r.of == k ==> r.observedAt < t[k].observedAt) ==> s == t[k])
  {
    if rs != [] {
      var front, last := rs[..|rs| - 1], rs[|rs| - 1];
      NothingRollsBack(t, front, k);
      assert rs == front + [last];
    }
  }

  ghost predicate SameReadings(a: seq<Reading>, b: seq<Reading>) {
    forall r :: r in a <==> r in b
  }

  /** Two readings of one measurement taken at the same time agree on the figure. */
  ghost predicate Consistent(rs: seq<Reading>) {
    forall i, j :: 0 <= i < |rs| && 0 <= j < |rs| && rs[i].of == rs[j].of && rs[i].observedAt == rs[j].observedAt ==>
      rs[i].figure == rs[j].figure
  }

  /**
   * Convergence: the same readings, in any order, duplicated any number of times and cut into any batches,
   * leave the same keys with the same times and the same figures.
   */
  lemma Converges(a: seq<seq<Reading>>, b: seq<seq<Reading>>, k: Measurement)
    requires SameReadings(Flatten(a), Flatten(b)) && Consistent(Flatten(a))
    ensures k in DeliverAll(map[], a) <==> k in DeliverAll(map[], b)
    ensures k in DeliverAll(map[], a) ==>
              && DeliverAll(map[], a)[k].observedAt == DeliverAll(map[], b)[k].observedAt
              && DeliverAll(map[], a)[k].figure == DeliverAll(map[], b)[k].figure
  {
    BatchingIsIrrelevant(map[], a);
    BatchingIsIrrelevant(map[], b);
    var p, q := Flatten(a), Flatten(b);
    if j :| 0 <= j < |p| && p[j].of == k {
      assert p[j] in q;
      var m := StoredIsTheWinner(p, k);
      var n := StoredIsTheWinner(q, k);
      assert p[m] in q && q[n] in p;
    } else {
      UnseenIsAbsent(p, k);
      forall j | 0 <= j < |q|
        ensures q[j].of != k
      {
        assert q[j] in p;
      }
      UnseenIsAbsent(q, k);
    }
  }

  // --- The post link does depend on the order --------------------------------------------------------------

  ghost predicate IsFreshest(rs: seq<Reading>, r: Reading) {
    r in rs && forall x :: x in rs && x.of == r.of ==> x.observedAt <= r.observedAt
  }

  ghost predicate LinkedWheneverDelivered(rs: seq<Reading>, k: Measurement) {
    forall order :: SameReadings(rs, order) ==> k in Deliver(map[], order) && Deliver(map[], order)[k].job.Some?
  }

  lemma {:induction false} FreshestLinks(rs: seq<Reading>, r: Reading)
    requires IsFreshest(rs, r) && r.job.Some?
    ensures r.of in Deliver(map[], rs) && Deliver(map[], rs)[r.of].job.Some?
  {
    var front, last := rs[..|rs| - 1], rs[|rs| - 1];
    assert rs == front + [last];
    if r in front {
      FreshestLinks(front, r);
    } else if r.of in Deliver(map[], front) {
      var i := SeenIfStored(front, r.of);
      var w := StoredIsTheWinner(front, r.of);
      assert front[w] in rs;
    }
  }

  lemma {:induction false} SeenIfStored(rs: seq<Reading>, k: Measurement) returns (i: nat)
    requires k in Deliver(map[], rs)
    ensures i < |rs| && rs[i].of == k
  {
    if rs[|rs| - 1].of == k {
      i := |rs| - 1;
    } else {
      i := SeenIfStored(rs[..|rs| - 1], k);
    }
  }

  lemma {:induction false} UnlinkedFirstStaysUnlinked(first: Reading, rs: seq<Reading>)
    requires first.job.None?
    requires forall r :: r in rs && r.of == first.of ==>
               r.observedAt <= first.observedAt && (r.observedAt == first.observedAt ==> r.job.None?)
    ensures var t := Deliver(map[], [first] + rs);
            first.of in t && t[first.of].job.None? && t[first.of].observedAt == first.observedAt
  {
    if rs == [] {
      assert [first] + rs == [first];
      assert [first][..0] == [];
    } else {
      var front, last := rs[..|rs| - 1], rs[|rs| - 1];
      assert rs == front + [last] && last in rs;
      assert ([first] + rs)[..|rs|] == [first] + front;
      UnlinkedFirstStaysUnlinked(first, front);
    }
  }

  /**
   * A late reading that brings the link is dropped whole. So the link is there under every order of the same
   * deliveries if and only if some reading at the greatest observation time carries it.
   */
  lemma LinkSurvivesEveryOrderIff(rs: seq<Reading>, k: Measurement)
    requires exists r :: r in rs && r.of == k
    ensures LinkedWheneverDelivered(rs, k) <==> exists r :: IsFreshest(rs, r) && r.of == k && r.job.Some?
  {
    if r :| IsFreshest(rs, r) && r.of == k && r.job.Some? {
      forall order | SameReadings(rs, order)
        ensures k in Deliver(map[], order) && Deliver(map[], order)[k].job.Some?
      {
        assert r in order;
        FreshestLinks(order, r);
      }
    } else {
      var r :| r in rs && r.of == k;
      var j :| 0 <= j < |rs| && rs[j] == r;
      var w := StoredIsTheWinner(rs, k);
      var first := rs[w];
      assert IsFreshest(rs, first) by {
        forall x | x in rs && x.of == first.of
          ensures x.observedAt <= first.observedAt
        {
          var i :| 0 <= i < |rs| && rs[i] == x;
        }
      }
      assert first.job.None?;
      forall x | x in rs && x.of == k && x.observedAt == first.observedAt
        ensures x.job.None?
      {
        assert IsFreshest(rs, x);
      }
      UnlinkedFirstStaysUnlinked(first, rs);
      assert SameReadings(rs, [first] + rs);
    }
  }
}
