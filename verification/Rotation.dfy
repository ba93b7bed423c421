/**
 * Rotation over rows that never retire: a bounded batch from the front, each row parked at the time it was
 * served so that it goes to the back. A row never parked yet stands at -1.
 */
module Rotation {
  import opened KeyOrder

  type Parks = map<int, int>

  function Keys(parks: Parks): (s: set<Key>)
    ensures forall k :: k in s <==> k.id in parks && parks[k.id] == k.value
  {
    set id | id in parks :: Key(parks[id], id)
  }

  lemma {:induction false} KeysCount(parks: Parks)
    ensures |Keys(parks)| == |parks|
    decreases parks.Keys
  {
    if Keys(parks) == {} {
      assert forall id :: id in parks ==> Key(parks[id], id) in Keys(parks);
      assert parks.Keys == {};
    } else {
      var k :| k in Keys(parks);
      var less := parks - {k.id};
      KeysCount(less);
      assert Keys(parks) == Keys(less) + {k};
      assert parks.Keys == less.Keys + {k.id};
      assert |parks| == |parks.Keys| && |less| == |less.Keys|;
    }
  }

  ghost function Queue(parks: Parks): seq<Key> {
    Sorted(Keys(parks))
  }

  function Ids(q: seq<Key>): (s: set<int>)
    ensures forall i :: 0 <= i < |q| ==> q[i].id in s
    ensures forall x :: x in s ==> exists i :: 0 <= i < |q| && q[i].id == x
  {
    set i | 0 <= i < |q| :: q[i].id
  }

  function Min(a: int, b: int): int {
    if a < b then a else b
  }

  function Parked(parks: Parks, served: set<int>, now: int): Parks {
    map id | id in parks :: if id in served then now else parks[id]
  }

  /** The clock has moved on since every park. */
  predicate Before(parks: Parks, now: int) {
    forall id :: id in parks ==> parks[id] < now
  }

  /** The rows of a queue that were not served, in the order they stood in. */
  function Waiting(q: seq<Key>, served: set<int>): (r: seq<Key>)
    ensures forall k :: k in r <==> k in q && k.id !in served
    ensures |r| <= |q|
  {
    if q == [] then []
    else Waiting(q[..|q| - 1], served) + if q[|q| - 1].id in served then [] else [q[|q| - 1]]
  }

  lemma {:induction false} WaitingAscends(q: seq<Key>, served: set<int>)
    requires Ascending(q)
    ensures Ascending(Waiting(q, served))
  {
    if q != [] {
      var front, last := q[..|q| - 1], q[|q| - 1];
      WaitingAscends(front, served);
      var r := Waiting(front, served);
      forall i | 0 <= i < |r|
        ensures Less(r[i], last)
      {
        assert r[i] in front;
        var j :| 0 <= j < |front| && front[j] == r[i];
        assert Less(q[j], q[|q| - 1]);
      }
    }
  }

  /** The rows served go to the back, and the others keep their places in the order. */
  lemma QueueAfter(parks: Parks, served: set<int>, now: int) returns (back: seq<Key>)
    requires Before(parks, now)
    ensures Queue(Parked(parks, served, now)) == Waiting(Queue(parks), served) + back
  {
    var q, after := Queue(parks), Parked(parks, served, now);
    var waiting := Waiting(q, served);
    var moved := set id | id in parks && id in served :: Key(now, id);
    back := Sorted(moved);
    WaitingAscends(q, served);
    var all := waiting + back;
    forall i, j | 0 <= i < j < |all|
      ensures Less(all[i], all[j])
    {
      if i < |waiting| <= j {
        assert waiting[i] in q;
        assert back[j - |waiting|] in moved;
      }
    }
    forall i | 0 <= i < |all|
      ensures all[i] in Keys(after)
    {
      if i < |waiting| {
        assert waiting[i] in q;
      } else {
        assert back[i - |waiting|] in moved;
      }
    }
    forall k | k in Keys(after)
      ensures k in all
    {
      if k.id in served {
        assert k in moved && k in back;
      } else {
        assert k in Keys(parks) && k in q && k in waiting;
      }
    }
    SortedIsUnique(Keys(after), all);
  }

  lemma {:induction false} WaitingBehind(q: seq<Key>, m: nat, served: set<int>)
    requires m <= |q| && Ids(q[..m]) <= served
    requires forall i :: m <= i < |q| ==> q[i].id !in served
    ensures Waiting(q, served) == q[m..]
    decreases |q|
  {
    if q != [] {
      var front, last := q[..|q| - 1], q[|q| - 1];
      if m < |q| {
        assert front[..m] == q[..m];
        WaitingBehind(front, m, served);
        assert q[m..] == front[m..] + [last];
      } else {
        assert q[..m] == q && q[m..] == [];
        AllServed(q, served);
      }
    }
  }

  lemma {:induction false} AllServed(q: seq<Key>, served: set<int>)
    requires Ids(q) <= served
    ensures Waiting(q, served) == []
  {
    if q != [] {
      var front := q[..|q| - 1];
      assert forall i :: 0 <= i < |front| ==> front[i].id == q[i].id;
      AllServed(front, served);
    }
  }

  lemma DistinctIds(parks: Parks, i: nat, j: nat)
    requires i < |Queue(parks)| && j < |Queue(parks)| && i != j
    ensures Queue(parks)[i].id != Queue(parks)[j].id
  {
    var q := Queue(parks);
    assert q[i] in q && q[j] in q;
    assert Less(q[i], q[j]) || Less(q[j], q[i]);
  }

  /** Serving the first m rows moves every other one m places forward. */
  lemma FrontServed(parks: Parks, m: nat, now: int)
    requires Before(parks, now) && m <= |Queue(parks)|
    ensures var after := Queue(Parked(parks, Ids(Queue(parks)[..m]), now));
            |after| == |Queue(parks)| && after[..|Queue(parks)| - m] == Queue(parks)[m..]
  {
    var q := Queue(parks);
    var served := Ids(q[..m]);
    forall i | m <= i < |q|
      ensures q[i].id !in served
    {
      forall j | 0 <= j < m
        ensures q[..m][j].id != q[i].id
      {
        DistinctIds(parks, i, j);
      }
    }
    WaitingBehind(q, m, served);
    var back := QueueAfter(parks, served, now);
    KeysCount(parks);
    KeysCount(Parked(parks, served, now));
    assert Parked(parks, served, now).Keys == parks.Keys;
    assert |Parked(parks, served, now)| == |Parked(parks, served, now).Keys| == |parks.Keys| == |parks|;
  }

  /** Where a row that was not among the first m stands after they were served. */
  lemma MovesForward(parks: Parks, m: nat, now: int, p: nat)
    requires Before(parks, now) && m <= p < |Queue(parks)|
    ensures var after := Queue(Parked(parks, Ids(Queue(parks)[..m]), now));
            |after| == |Queue(parks)| && after[p - m] == Queue(parks)[p]
  {
    FrontServed(parks, m, now);
    var q, after := Queue(parks), Queue(Parked(parks, Ids(Queue(parks)[..m]), now));
    assert after[..|q| - m][p - m] == q[m..][p - m];
  }

  ghost predicate StandsAt(parks: Parks, p: nat, k: Key) {
    p < |Queue(parks)| && Queue(parks)[p] == k
  }

  // --- Threshold rules: an evaluation that throws ends the pass ---------------------------------------------

  /** How many rows of the batch are evaluated and parked before the first whose evaluation throws. */
  function ServedCount(batch: seq<Key>, throws: set<int>): (m: nat)
    ensures m <= |batch|
    ensures forall i :: 0 <= i < m ==> batch[i].id !in throws
    ensures m < |batch| ==> batch[m].id in throws
  {
    if batch == [] || batch[0].id in throws then 0 else 1 + ServedCount(batch[1..], throws)
  }

  function Eligible(parks: Parks, now: int): set<Key> {
    set k | k in Keys(parks) && k.value <= now
  }

  ghost function ThresholdBatch(parks: Parks, now: int, size: nat): seq<Key> {
    var q := Sorted(Eligible(parks, now));
    q[..Min(size, |q|)]
  }

  ghost function Served(parks: Parks, now: int, size: nat, throws: set<int>): set<int> {
    var batch := ThresholdBatch(parks, now, size);
    Ids(batch[..ServedCount(batch, throws)])
  }

  ghost function Pass(parks: Parks, now: int, size: nat, throws: set<int>): Parks {
    Parked(parks, Served(parks, now, size, throws), now)
  }

  lemma EveryoneIsEligible(parks: Parks, now: int, size: nat)
    requires Before(parks, now)
    ensures Eligible(parks, now) == Keys(parks)
    ensures ThresholdBatch(parks, now, size) == Queue(parks)[..Min(size, |Queue(parks)|)]
  {
    assert Eligible(parks, now) == Keys(parks);
  }

  ghost function EnsureBatch(parks: Parks, size: nat): seq<Key> {
    Queue(parks)[..Min(size, |Queue(parks)|)]
  }

  /** Connections of a workspace whose ensure throws are not parked; the others of the batch are. */
  ghost function Ensure(parks: Parks, now: int, size: nat, failing: set<int>): Parks {
    Parked(parks, Ids(EnsureBatch(parks, size)) - failing, now)
  }

  class Scheduler {
    var parks: Parks

    constructor (initial: Parks)
      ensures parks == initial
    {
      parks := initial;
    }

    /** The park commits with the evaluation, and only forwards; an evaluation that throws ends the whole pass. */
    method ProduceThresholdEvents(now: int, size: nat, throws: set<int>)
      modifies this
      ensures parks == Pass(old(parks), now, size, throws)
    {
      var due := OrderBy(Eligible(parks, now));
      var batch := due[..Min(size, |due|)];
      ghost var m := ServedCount(batch, throws);
      Untouched(parks, batch, now);
      var i := 0;
      while i < |batch|
        invariant 0 <= i <= m
        invariant parks == Parked(old(parks), Ids(batch[..i]), now)
      {
        if batch[i].id in throws {
          return;
        }
        var id := batch[i].id;
        BatchIsEligible(old(parks), now, size, i);
        ParkInTurn(old(parks), batch, i, now);
        if parks[id] <= now {
          parks := parks[id := now];
        }
        i := i + 1;
      }
    }

    /** A workspace that throws is skipped; the others of the batch are ensured and parked. */
    method EnsureCursors(now: int, size: nat, failing: set<int>)
      modifies this
      ensures parks == Ensure(old(parks), now, size, failing)
    {
      var queue := OrderBy(Keys(parks));
      var batch := queue[..Min(size, |queue|)];
      NobodyYet(parks, batch, failing, now);
      for i := 0 to |batch|
        invariant parks == Parked(old(parks), Ids(batch[..i]) - failing, now)
      {
        assert batch[i] in Keys(old(parks));
        ParkUnlessFailing(old(parks), batch, i, failing, now);
        if batch[i].id !in failing {
          parks := parks[batch[i].id := now];
        }
      }
      assert batch[..|batch|] == batch;
    }
  }

  lemma NobodyYet(parks: Parks, batch: seq<Key>, failing: set<int>, now: int)
    ensures Parked(parks, Ids(batch[..0]) - failing, now) == parks
  {
    assert batch[..0] == [] && Ids(batch[..0]) == {};
  }

  lemma ParkUnlessFailing(parks: Parks, batch: seq<Key>, i: nat, failing: set<int>, now: int)
    requires i < |batch| && batch[i].id in parks
    ensures var before := Parked(parks, Ids(batch[..i]) - failing, now);
            batch[i].id in before
            && Parked(parks, Ids(batch[..i + 1]) - failing, now) == if batch[i].id in failing then before else before[batch[i].id := now]
  {
    assert batch[..i + 1] == batch[..i] + [batch[i]];
    assert Ids(batch[..i + 1]) == Ids(batch[..i]) + {batch[i].id};
  }

  lemma Untouched(parks: Parks, batch: seq<Key>, now: int)
    ensures Parked(parks, Ids(batch[..0]), now) == parks
  {
    assert batch[..0] == [] && Ids(batch[..0]) == {};
  }

  lemma ParkInTurn(parks: Parks, batch: seq<Key>, i: nat, now: int)
    requires i < |batch| && batch[i].id in parks && parks[batch[i].id] <= now
    ensures var before := Parked(parks, Ids(batch[..i]), now);
            && batch[i].id in before && before[batch[i].id] <= now
            && Parked(parks, Ids(batch[..i + 1]), now) == before[batch[i].id := now]
  {
    assert batch[..i + 1] == batch[..i] + [batch[i]];
    assert Ids(batch[..i + 1]) == Ids(batch[..i]) + {batch[i].id};
  }

  lemma BatchIsEligible(parks: Parks, now: int, size: nat, i: nat)
    requires i < |ThresholdBatch(parks, now, size)|
    ensures var k := ThresholdBatch(parks, now, size)[i];
            k.id in parks && parks[k.id] <= now
  {
    var all := Sorted(Eligible(parks, now));
    assert ThresholdBatch(parks, now, size)[i] == all[i];
    assert all[i] in Eligible(parks, now);
  }

  predicate Ticks(parks: Parks, nows: seq<int>) {
    && (|nows| > 0 ==> Before(parks, nows[0]))
    && forall i, j :: 0 <= i < j < |nows| ==> nows[i] < nows[j]
  }

  lemma TicksOn(parks: Parks, nows: seq<int>, size: nat, throws: set<int>)
    requires |nows| > 0 && Ticks(parks, nows)
    ensures Ticks(Pass(parks, nows[0], size, throws), nows[1..])
  {
    if |nows| > 1 {
      assert nows[0] < nows[1];
    }
  }

  ghost function Passes(parks: Parks, nows: seq<int>, size: nat, throws: set<int>): Parks
    decreases |nows|
  {
    if nows == [] then parks else Passes(Pass(parks, nows[0], size, throws), nows[1..], size, throws)
  }

  /** Whether some pass of the sequence evaluates this rule to its end. */
  ghost predicate Visited(parks: Parks, nows: seq<int>, size: nat, throws: set<int>, id: int)
    decreases |nows|
  {
    && nows != []
    && (id in Served(parks, nows[0], size, throws)
        || Visited(Pass(parks, nows[0], size, throws), nows[1..], size, throws, id))
  }

  /** What one pass serves: the front of the queue, up to the batch size or the first thrower. */
  lemma PassServesTheFront(parks: Parks, now: int, size: nat, throws: set<int>) returns (m: nat)
    requires Before(parks, now)
    ensures m <= Min(size, |Queue(parks)|)
    ensures Served(parks, now, size, throws) == Ids(Queue(parks)[..m])
    ensures forall i :: 0 <= i < m ==> Queue(parks)[i].id !in throws
    ensures m < Min(size, |Queue(parks)|) ==> Queue(parks)[m].id in throws
  {
    EveryoneIsEligible(parks, now, size);
    var q, batch := Queue(parks), ThresholdBatch(parks, now, size);
    m := ServedCount(batch, throws);
    assert batch[..m] == q[..m];
    assert forall i :: 0 <= i < |batch| ==> batch[i] == q[i];
  }

  lemma NobodyThrows(parks: Parks, throws: set<int>)
    requires throws !! parks.Keys
    ensures forall i :: 0 <= i < |Queue(parks)| ==> Queue(parks)[i].id !in throws
  {
    forall i | 0 <= i < |Queue(parks)|
      ensures Queue(parks)[i].id !in throws
    {
      assert Queue(parks)[i] in Keys(parks);
    }
  }

  /** One pass either serves the row at place p, or moves it a whole batch forward. */
  lemma ServedOrMoved(parks: Parks, now: int, size: nat, throws: set<int>, p: nat, k: Key)
    requires Before(parks, now) && StandsAt(parks, p, k) && throws !! parks.Keys
    ensures p < size ==> k.id in Served(parks, now, size, throws)
    ensures size <= p ==> StandsAt(Pass(parks, now, size, throws), p - size, k)
  {
    var m := PassServesTheFront(parks, now, size, throws);
    var q := Queue(parks);
    NobodyThrows(parks, throws);
    if p < size {
      assert q[..m][p] == k;
    } else {
      MovesForward(parks, m, now, p);
    }
  }

  lemma OneTurnLess(p: nat, n: nat, size: nat)
    requires p < n * size
    ensures 0 < n && (size <= p ==> p - size < (n - 1) * size)
  {
    assert n == 0 ==> n * size == 0;
    assert (n - 1) * size == n * size - size;
  }

  lemma {:induction false} VisitedByPlace(parks: Parks, nows: seq<int>, size: nat, throws: set<int>, p: nat, k: Key)
    requires Ticks(parks, nows) && StandsAt(parks, p, k) && p < |nows| * size && throws !! parks.Keys
    ensures Visited(parks, nows, size, throws, k.id)
    decreases |nows|
  {
    OneTurnLess(p, |nows|, size);
    ServedOrMoved(parks, nows[0], size, throws, p, k);
    if size <= p {
      TicksOn(parks, nows, size, throws);
      VisitedByPlace(Pass(parks, nows[0], size, throws), nows[1..], size, throws, p - size, k);
    }
  }

  /**
   * Fairness: with no enabled rule whose evaluation throws and a clock that moves on, every one of n rules is
   * visited in any ceil(n / size) consecutive passes.
   */
  lemma EveryRuleIsVisited(parks: Parks, nows: seq<int>, size: nat, throws: set<int>, id: int)
    requires Ticks(parks, nows) && id in parks && |parks| <= |nows| * size && throws !! parks.Keys
    ensures Visited(parks, nows, size, throws, id)
  {
    KeysCount(parks);
    assert Key(parks[id], id) in Queue(parks);
    var p :| 0 <= p < |Queue(parks)| && Queue(parks)[p] == Key(parks[id], id);
    VisitedByPlace(parks, nows, size, throws, p, Key(parks[id], id));
  }

  lemma NothingServedNothingParked(parks: Parks, now: int)
    ensures Parked(parks, {}, now) == parks
  {
  }

  /** While the front rule throws, passes neither visit anybody nor change anything. */
  lemma {:induction false} StuckFrontStaysStuck(parks: Parks, nows: seq<int>, size: nat, throws: set<int>, id: int)
    requires Ticks(parks, nows) && Queue(parks) != [] && Queue(parks)[0].id in throws
    ensures !Visited(parks, nows, size, throws, id) && Passes(parks, nows, size, throws) == parks
    decreases |nows|
  {
    if nows != [] {
      EveryoneIsEligible(parks, nows[0], size);
      var batch := ThresholdBatch(parks, nows[0], size);
      assert ServedCount(batch, throws) == 0;
      assert Ids(batch[..0]) == {};
      NothingServedNothingParked(parks, nows[0]);
      TicksOn(parks, nows, size, throws);
      StuckFrontStaysStuck(parks, nows[1..], size, throws, id);
    }
  }

  /** A thrower that is not in front comes closer with every pass. */
  lemma ThrowerComesCloser(parks: Parks, now: int, size: nat, throws: set<int>, p: nat, k: Key) returns (q: nat)
    requires Before(parks, now) && 1 <= size && StandsAt(parks, p, k) && k.id in throws && Queue(parks)[0].id !in throws
    ensures q < p && StandsAt(Pass(parks, now, size, throws), q, k)
  {
    var m := PassServesTheFront(parks, now, size, throws);
    MovesForward(parks, m, now, p);
    q := p - m;
  }

  lemma {:induction false} ThrowerReachesTheFront(parks: Parks, nows: seq<int>, size: nat, throws: set<int>, p: nat, k: Key)
    requires Ticks(parks, nows) && 1 <= size && StandsAt(parks, p, k) && k.id in throws && p <= |nows|
    ensures var after := Queue(Passes(parks, nows, size, throws));
            after != [] && after[0].id in throws
    decreases |nows|
  {
    if Queue(parks)[0].id in throws {
      StuckFrontStaysStuck(parks, nows, size, throws, k.id);
    } else {
      var q := ThrowerComesCloser(parks, nows[0], size, throws, p, k);
      TicksOn(parks, nows, size, throws);
      ThrowerReachesTheFront(Pass(parks, nows[0], size, throws), nows[1..], size, throws, q, k);
    }
  }

  /**
   * And exactly what breaks it: one enabled rule whose evaluation always throws. It is never parked, so within
   * as many passes as there are rules it stands at the front, and from then on no rule at all is evaluated.
   */
  lemma OneThrowerStopsEverything(parks: Parks, nows: seq<int>, later: seq<int>, size: nat, throws: set<int>, id: int, other: int)
    requires Ticks(parks, nows) && 1 <= size && id in parks && id in throws && |parks| <= |nows|
    requires Ticks(Passes(parks, nows, size, throws), later)
    ensures !Visited(Passes(parks, nows, size, throws), later, size, throws, other)
    ensures Passes(Passes(parks, nows, size, throws), later, size, throws) == Passes(parks, nows, size, throws)
  {
    KeysCount(parks);
    assert Key(parks[id], id) in Queue(parks);
    var p :| 0 <= p < |Queue(parks)| && Queue(parks)[p] == Key(parks[id], id);
    ThrowerReachesTheFront(parks, nows, size, throws, p, Key(parks[id], id));
    StuckFrontStaysStuck(Passes(parks, nows, size, throws), later, size, throws, other);
  }

  // --- Overlapping passes -----------------------------------------------------------------------------------

  datatype ParkWrite = ParkWrite(id: int, now: int)

  /** The guarded update: a park only ever moves forward. */
  function Write(parks: Parks, w: ParkWrite): Parks {
    if w.id in parks && parks[w.id] <= w.now then parks[w.id := w.now] else parks
  }

  function Writes(parks: Parks, ws: seq<ParkWrite>): Parks {
    if ws == [] then parks else Write(Writes(parks, ws[..|ws| - 1]), ws[|ws| - 1])
  }

  /** However the writes of overlapping passes interleave, a rule ends at the latest time any of them parked it. */
  lemma {:induction false} ParksEndAtTheLatest(parks: Parks, ws: seq<ParkWrite>, id: int)
    requires id in parks
    ensures var after := Writes(parks, ws);
            && id in after && parks[id] <= after[id]
            && (forall i :: 0 <= i < |ws| && ws[i].id == id ==> ws[i].now <= after[id])
            && (after[id] == parks[id] || exists i :: 0 <= i < |ws| && ws[i].id == id && ws[i].now == after[id])
  {
    if ws != [] {
      ParksEndAtTheLatest(parks, ws[..|ws| - 1], id);
    }
  }

  // --- Cursor ensure: a workspace that fails keeps its place, and the pass goes on ----------------------------

  ghost predicate Ensured(parks: Parks, nows: seq<int>, size: nat, failing: set<int>, id: int)
    decreases |nows|
  {
    && nows != []
    && (id in Ids(EnsureBatch(parks, size)) - failing
        || Ensured(Ensure(parks, nows[0], size, failing), nows[1..], size, failing, id))
  }

  lemma {:induction false} WaitingConcat(a: seq<Key>, b: seq<Key>, served: set<int>)
    ensures Waiting(a + b, served) == Waiting(a, served) + Waiting(b, served)
    decreases |b|
  {
    if b == [] {
      assert a + b == a;
    } else {
      assert (a + b)[..|a + b| - 1] == a + b[..|b| - 1];
      WaitingConcat(a, b[..|b| - 1], served);
    }
  }

  lemma {:induction false} FewAreFailing(q: seq<Key>, failing: set<int>)
    requires forall i, j :: 0 <= i < j < |q| ==> q[i].id != q[j].id
    ensures |Waiting(q, failing)| >= |q| - |failing|
    decreases |q|
  {
    if q != [] {
      var front, last := q[..|q| - 1], q[|q| - 1];
      if last.id in failing {
        FewAreFailing(front, failing - {last.id});
        SameWithout(front, failing, last.id);
      } else {
        FewAreFailing(front, failing);
      }
    }
  }

  lemma {:induction false} SameWithout(q: seq<Key>, failing: set<int>, id: int)
    requires forall i :: 0 <= i < |q| ==> q[i].id != id
    ensures Waiting(q, failing - {id}) == Waiting(q, failing)
  {
    if q != [] {
      SameWithout(q[..|q| - 1], failing, id);
    }
  }

  /** The connections that do not fail form a queue of their own, in the same order. */
  lemma SoundQueue(parks: Parks, failing: set<int>)
    ensures Queue(parks - failing) == Waiting(Queue(parks), failing)
  {
    var w := Waiting(Queue(parks), failing);
    WaitingAscends(Queue(parks), failing);
    forall i | 0 <= i < |w|
      ensures w[i] in Keys(parks - failing)
    {
      assert w[i] in w && w[i] in Queue(parks);
    }
    forall k | k in Keys(parks - failing)
      ensures k in w
    {
      assert k in Keys(parks) && k in Queue(parks);
    }
    SortedIsUnique(Keys(parks - failing), w);
  }

  /** The rows of a list that are left when the first n are taken, all or not, and the failing ones dropped. */
  lemma SoundPrefix(q: seq<Key>, n: nat, failing: set<int>)
    requires n <= |q| && forall i, j :: 0 <= i < j < |q| ==> q[i].id != q[j].id
    ensures var m := |Waiting(q[..n], failing)|;
            && n - |failing| <= m <= |Waiting(q, failing)|
            && Waiting(q, failing)[..m] == Waiting(q[..n], failing)
            && (n == |q| ==> m == |Waiting(q, failing)|)
  {
    assert q == q[..n] + q[n..];
    WaitingConcat(q[..n], q[n..], failing);
    FewAreFailing(q[..n], failing);
    if n == |q| {
      assert q[..n] == q;
    }
  }

  /** The sound part of a batch is the front of that queue, at least as far as the batch reaches past the failing ones. */
  lemma SoundPartOfBatch(parks: Parks, size: nat, failing: set<int>)
    ensures var m := |Waiting(EnsureBatch(parks, size), failing)|;
            && m <= |Queue(parks - failing)| && m >= Min(size - |failing|, |Queue(parks - failing)|)
            && Queue(parks - failing)[..m] == Waiting(EnsureBatch(parks, size), failing)
  {
    SoundQueue(parks, failing);
    forall i, j | 0 <= i < j < |Queue(parks)|
      ensures Queue(parks)[i].id != Queue(parks)[j].id
    {
      DistinctIds(parks, i, j);
    }
    SoundPrefix(Queue(parks), Min(size, |Queue(parks)|), failing);
  }

  lemma IdsOfWaiting(q: seq<Key>, failing: set<int>)
    ensures Ids(q) - failing == Ids(Waiting(q, failing))
  {
    var w := Waiting(q, failing);
    forall x
      ensures x in Ids(q) - failing <==> x in Ids(w)
    {
      if x in Ids(q) - failing {
        var i :| 0 <= i < |q| && q[i].id == x;
        assert q[i] in w;
      }
      if x in Ids(w) {
        var i :| 0 <= i < |w| && w[i].id == x;
        assert w[i] in w && w[i] in q;
      }
    }
  }

  lemma ParkedWithout(parks: Parks, served: set<int>, now: int, failing: set<int>)
    ensures Parked(parks, served - failing, now) - failing == Parked(parks - failing, served - failing, now)
  {
  }

  /** One pass either reaches the sound connection at place p, or moves it forward by what the failing ones left. */
  lemma EnsuredOrMoved(parks: Parks, now: int, size: nat, failing: set<int>, p: nat, k: Key) returns (m: nat)
    requires Before(parks, now) && |failing| < size && StandsAt(parks - failing, p, k)
    ensures p < m ==> k.id in Ids(EnsureBatch(parks, size)) - failing
    ensures m <= p ==> size - |failing| <= m && StandsAt(Ensure(parks, now, size, failing) - failing, p - m, k)
  {
    var batch, good := EnsureBatch(parks, size), parks - failing;
    m := |Waiting(batch, failing)|;
    SoundPartOfBatch(parks, size, failing);
    IdsOfWaiting(batch, failing);
    if p < m {
      assert Queue(good)[..m][p] == Queue(good)[p];
    } else {
      ParkedWithout(parks, Ids(batch), now, failing);
      MovesForward(good, m, now, p);
    }
  }

  lemma EnsureTicksOn(parks: Parks, nows: seq<int>, size: nat, failing: set<int>)
    requires |nows| > 0 && Ticks(parks, nows)
    ensures Ticks(Ensure(parks, nows[0], size, failing), nows[1..]) && Before(parks - failing, nows[0])
  {
    if |nows| > 1 {
      assert nows[0] < nows[1];
    }
  }

  lemma EnsuredNowOrLater(parks: Parks, nows: seq<int>, size: nat, failing: set<int>, id: int)
    requires nows != []
    requires id in Ids(EnsureBatch(parks, size)) - failing || Ensured(Ensure(parks, nows[0], size, failing), nows[1..], size, failing, id)
    ensures Ensured(parks, nows, size, failing, id)
  {
  }

  /** A sound connection whose turn comes within these passes, for a batch with this much room. */
  ghost predicate Due(parks: Parks, nows: seq<int>, failing: set<int>, room: nat, p: nat, k: Key) {
    Ticks(parks, nows) && StandsAt(parks - failing, p, k) && p < |nows| * room
  }

  lemma EnsuredOrDueLater(parks: Parks, nows: seq<int>, size: nat, failing: set<int>, p: nat, k: Key) returns (q: nat)
    requires |failing| < size && Due(parks, nows, failing, size - |failing|, p, k)
    ensures |nows| > 0
    ensures k.id in Ids(EnsureBatch(parks, size)) - failing
            || Due(Ensure(parks, nows[0], size, failing), nows[1..], failing, size - |failing|, q, k)
  {
    OneTurnLess(p, |nows|, size - |failing|);
    EnsureTicksOn(parks, nows, size, failing);
    var m := EnsuredOrMoved(parks, nows[0], size, failing, p, k);
    q := if m <= p then p - m else 0;
    if m <= p {
      LaterTurn(p, m, nows, size - |failing|);
    }
  }

  lemma LaterTurn(p: nat, m: nat, nows: seq<int>, room: nat)
    requires p < |nows| * room && room <= m <= p
    ensures nows != [] && p - m < |nows[1..]| * room
  {
    OneTurnLess(p, |nows|, room);
  }

  lemma {:induction false} EnsuredByPlace(parks: Parks, nows: seq<int>, size: nat, failing: set<int>, p: nat, k: Key)
    requires |failing| < size && Due(parks, nows, failing, size - |failing|, p, k)
    ensures Ensured(parks, nows, size, failing, k.id)
    decreases |nows|
  {
    var q := EnsuredOrDueLater(parks, nows, size, failing, p, k);
    if k.id !in Ids(EnsureBatch(parks, size)) - failing {
      EnsuredByPlace(Ensure(parks, nows[0], size, failing), nows[1..], size, failing, q, k);
    }
    EnsuredNowOrLater(parks, nows, size, failing, k.id);
  }

  /**
   * Failing connections only cost their places in the batch: as long as there are fewer of them than the batch
   * holds, every other one is reached in ceil(sound / (size - failing)) passes; with none, in ceil(n / size).
   */
  lemma EveryConnectionIsEnsured(parks: Parks, nows: seq<int>, size: nat, failing: set<int>, id: int)
    requires Ticks(parks, nows) && |failing| < size && id in parks && id !in failing
    requires |parks - failing| <= |nows| * (size - |failing|)
    ensures Ensured(parks, nows, size, failing, id)
  {
    var good := parks - failing;
    KeysCount(good);
    assert Key(good[id], id) in Queue(good);
    var p :| 0 <= p < |Queue(good)| && Queue(good)[p] == Key(good[id], id);
    EnsuredByPlace(parks, nows, size, failing, p, Key(good[id], id));
  }

  // --- As many failing connections as the batch holds ---------------------------------------------------------

  ghost function EnsurePasses(parks: Parks, nows: seq<int>, size: nat, failing: set<int>): Parks
    decreases |nows|
  {
    if nows == [] then parks else EnsurePasses(Ensure(parks, nows[0], size, failing), nows[1..], size, failing)
  }

  /** Once a batch holds nothing else, nobody is served and nothing moves. */
  lemma {:induction false} FullBatchOfFailuresStays(parks: Parks, nows: seq<int>, size: nat, failing: set<int>, id: int)
    requires Ids(EnsureBatch(parks, size)) <= failing
    ensures !Ensured(parks, nows, size, failing, id) && EnsurePasses(parks, nows, size, failing) == parks
    decreases |nows|
  {
    if nows != [] {
      assert Ids(EnsureBatch(parks, size)) - failing == {};
      NothingServedNothingParked(parks, nows[0]);
      FullBatchOfFailuresStays(parks, nows[1..], size, failing, id);
    }
  }

  /** The failing connections that stand no later than f. They are never parked, so never move. */
  function FailingUpTo(parks: Parks, failing: set<int>, f: Key): set<Key> {
    set k | k in Keys(parks) && k.id in failing && !Less(f, k)
  }

  /** The sound ones still ahead of f. */
  function SoundAhead(parks: Parks, failing: set<int>, f: Key): set<Key> {
    set k | k in Keys(parks) && k.id !in failing && Less(k, f)
  }

  /** As long as the batch reaches a sound connection, that one is ahead of the last of as many failing ones. */
  lemma ReachedIsAhead(parks: Parks, size: nat, failing: set<int>, f: Key, i: nat)
    requires f in Keys(parks) && f.id in failing && size <= |FailingUpTo(parks, failing, f)|
    requires i < |EnsureBatch(parks, size)| && EnsureBatch(parks, size)[i].id !in failing
    ensures EnsureBatch(parks, size)[i] in SoundAhead(parks, failing, f)
  {
    var q := Queue(parks);
    assert q[i] == EnsureBatch(parks, size)[i] && q[i] in Keys(parks);
    if !Less(q[i], f) {
      forall k | k in FailingUpTo(parks, failing, f)
        ensures k in FirstRows(q, i)
      {
        assert k in q && k != q[i] && !Less(q[i], k);
      }
      FirstRowsCount(q, i);
      Fewer(FailingUpTo(parks, failing, f), FirstRows(q, i));
    }
  }

  /** Each pass that reaches one puts it behind f for good. */
  lemma FewerSoundAhead(parks: Parks, now: int, size: nat, failing: set<int>, f: Key)
    requires Before(parks, now) && f in Keys(parks) && f.id in failing && size <= |FailingUpTo(parks, failing, f)|
    requires !(Ids(EnsureBatch(parks, size)) <= failing)
    ensures var after := Ensure(parks, now, size, failing);
            && f in Keys(after) && FailingUpTo(after, failing, f) == FailingUpTo(parks, failing, f)
            && |SoundAhead(after, failing, f)| < |SoundAhead(parks, failing, f)|
  {
    var after, batch := Ensure(parks, now, size, failing), EnsureBatch(parks, size);
    var i :| 0 <= i < |batch| && batch[i].id !in failing;
    ReachedIsAhead(parks, size, failing, f, i);
    assert FailingUpTo(after, failing, f) == FailingUpTo(parks, failing, f);
    var before := SoundAhead(parks, failing, f);
    assert SoundAhead(after, failing, f) <= before - {batch[i]};
    Fewer(SoundAhead(after, failing, f), before - {batch[i]});
  }

  lemma {:induction false} FillsUp(parks: Parks, nows: seq<int>, size: nat, failing: set<int>, f: Key)
    requires Ticks(parks, nows) && f in Keys(parks) && f.id in failing && size <= |FailingUpTo(parks, failing, f)|
    requires |SoundAhead(parks, failing, f)| <= |nows|
    ensures Ids(EnsureBatch(EnsurePasses(parks, nows, size, failing), size)) <= failing
    decreases |nows|
  {
    if Ids(EnsureBatch(parks, size)) <= failing {
      FullBatchOfFailuresStays(parks, nows, size, failing, 0);
    } else if nows != [] {
      FewerSoundAhead(parks, nows[0], size, failing, f);
      EnsureTicksOn(parks, nows, size, failing);
      FillsUp(Ensure(parks, nows[0], size, failing), nows[1..], size, failing, f);
    } else {
      var i :| 0 <= i < |EnsureBatch(parks, size)| && EnsureBatch(parks, size)[i].id !in failing;
      ReachedIsAhead(parks, size, failing, f, i);
    }
  }

  /** The failing connection at the last place of a batch made of failing ones only. */
  lemma LastOfTheFirstFailing(parks: Parks, size: nat, failing: set<int>) returns (f: Key)
    requires failing <= parks.Keys && 1 <= size <= |failing|
    ensures f in Keys(parks) && f.id in failing && size <= |FailingUpTo(parks, failing, f)|
  {
    var part: Parks := map id | id in failing :: parks[id];
    KeysCount(part);
    assert part.Keys == failing && |part| == |part.Keys|;
    var q := Queue(part);
    f := q[size - 1];
    assert f in Keys(part);
    forall k | k in FirstRows(q, size)
      ensures k in FailingUpTo(parks, failing, f)
    {
      var i :| 0 <= i < size && q[i] == k;
      assert q[i] in Keys(part);
      assert i == size - 1 || Less(q[i], q[size - 1]);
    }
    FirstRowsCount(q, size);
    Fewer(FirstRows(q, size), FailingUpTo(parks, failing, f));
  }

  lemma SoundAheadAreSound(parks: Parks, failing: set<int>, f: Key)
    ensures |SoundAhead(parks, failing, f)| <= |parks - failing|
  {
    KeysCount(parks - failing);
    forall k | k in SoundAhead(parks, failing, f)
      ensures k in Keys(parks - failing)
    {
    }
    Fewer(SoundAhead(parks, failing, f), Keys(parks - failing));
  }

  /**
   * The other side of the same bound: with as many failing connections as the batch holds, then after at most as many
   * passes as there are sound ones, none of those is ever reached again.
   */
  lemma FailuresTakeTheBatch(parks: Parks, nows: seq<int>, later: seq<int>, size: nat, failing: set<int>, id: int)
    requires Ticks(parks, nows) && failing <= parks.Keys && size <= |failing| && |parks - failing| <= |nows|
    ensures var after := EnsurePasses(parks, nows, size, failing);
            !Ensured(after, later, size, failing, id) && EnsurePasses(after, later, size, failing) == after
  {
    if size == 0 {
      assert EnsureBatch(EnsurePasses(parks, nows, size, failing), size) == [];
    } else {
      var f := LastOfTheFirstFailing(parks, size, failing);
      SoundAheadAreSound(parks, failing, f);
      FillsUp(parks, nows, size, failing, f);
    }
    FullBatchOfFailuresStays(EnsurePasses(parks, nows, size, failing), later, size, failing, id);
  }
}
