/** The stuck-request sweep: bounded batches that exclude the rows this sweep could not fix. */
module StuckSweep {
  import opened KeyOrder

  datatype Status = InFlight | Done | TimedOut

  /** `fixable` is the ledger's side of it: whether releasing this row's reservation would go through. */
  datatype Row = Row(status: Status, deadline: int, fixable: bool)

  const BATCH_SIZE := 50

  function Min(a: int, b: int): int {
    if a < b then a else b
  }

  /** Past its deadline and not terminal. */
  function StuckKeys(rows: map<int, Row>, now: int): (s: set<Key>)
    ensures forall k :: k in s <==> (&& k.id in rows && rows[k.id].status == InFlight
                                     && rows[k.id].deadline < now && k.value == rows[k.id].deadline)
  {
    set id | id in rows && rows[id].status == InFlight && rows[id].deadline < now :: Key(rows[id].deadline, id)
  }

  /** The sweep's query: stuck rows this sweep has not failed on, oldest deadline first. */
  ghost function Candidates(rows: map<int, Row>, now: int, failed: seq<int>): seq<Key> {
    Sorted((set k | k in StuckKeys(rows, now) && k.id !in failed))
  }

  ghost predicate Known(rows: map<int, Row>, q: seq<Key>) {
    forall i :: 0 <= i < |q| ==> q[i].id in rows
  }

  ghost predicate HasId(q: seq<Key>, id: int) {
    exists i :: 0 <= i < |q| && q[i].id == id
  }

  function Fixables(rows: map<int, Row>, q: seq<Key>): nat
    requires Known(rows, q)
  {
    if q == [] then 0
    else Fixables(rows, q[..|q| - 1]) + if rows[q[|q| - 1].id].fixable then 1 else 0
  }

  /** The rows of a prefix that could not be fixed, in order. */
  function Unfixed(rows: map<int, Row>, q: seq<Key>): seq<int>
    requires Known(rows, q)
  {
    if q == [] then []
    else
      Unfixed(rows, q[..|q| - 1]) + if rows[q[|q| - 1].id].fixable then [] else [q[|q| - 1].id]
  }

  /** The table after the fixable rows of a prefix were reconciled. */
  function Reconciled(rows: map<int, Row>, q: seq<Key>): (r: map<int, Row>)
    requires Known(rows, q)
    ensures r.Keys == rows.Keys
    ensures forall id :: id in r ==> r[id].deadline == rows[id].deadline && r[id].fixable == rows[id].fixable
  {
    if q == [] then rows
    else
      var before := Reconciled(rows, q[..|q| - 1]);
      var id := q[|q| - 1].id;
      if rows[id].fixable then before[id := before[id].(status := TimedOut)] else before
  }

  lemma {:induction false} ReconciledPointwise(rows: map<int, Row>, q: seq<Key>, id: int)
    requires Known(rows, q) && id in rows
    ensures Reconciled(rows, q)[id]
         == if rows[id].fixable && HasId(q, id) then rows[id].(status := TimedOut) else rows[id]
  {
    if q != [] {
      var front, last := q[..|q| - 1], q[|q| - 1];
      assert q == front + [last];
      ReconciledPointwise(rows, front, id);
      assert HasId(q, id) <==> (last.id == id || HasId(front, id));
    }
  }

  lemma {:induction false} UnfixedMembers(rows: map<int, Row>, q: seq<Key>, id: int)
    requires Known(rows, q)
    ensures id in Unfixed(rows, q) <==> id in rows && !rows[id].fixable && HasId(q, id)
    ensures |Unfixed(rows, q)| + Fixables(rows, q) == |q|
  {
    if q != [] {
      var front, last := q[..|q| - 1], q[|q| - 1];
      assert q == front + [last];
      UnfixedMembers(rows, front, id);
      assert HasId(q, id) <==> (last.id == id || HasId(front, id));
    }
  }

  /** No two stuck rows share an id. */
  lemma IdsAreDistinct(rows: map<int, Row>, now: int, i: nat, j: nat)
    requires i < |Sorted(StuckKeys(rows, now))| && j < |Sorted(StuckKeys(rows, now))| && i != j
    ensures Sorted(StuckKeys(rows, now))[i].id != Sorted(StuckKeys(rows, now))[j].id
  {
    var todo := Sorted(StuckKeys(rows, now));
    assert todo[i] in todo && todo[j] in todo;
    assert Less(todo[i], todo[j]) || Less(todo[j], todo[i]);
  }

  ghost predicate Remaining(rows: map<int, Row>, now: int, todo: seq<Key>, n: nat, k: Key)
    requires Known(rows, todo) && n <= |todo|
  {
    k in StuckKeys(Reconciled(rows, todo[..n]), now) && k.id !in Unfixed(rows, todo[..n])
  }

  /** Whether a prefix of the order has the id of the row at place i: just when it reaches past i. */
  lemma PlaceOfId(rows: map<int, Row>, now: int, n: nat, i: nat)
    requires n <= |StuckKeys(rows, now)| && i < |Sorted(StuckKeys(rows, now))|
    ensures HasId(Sorted(StuckKeys(rows, now))[..n], Sorted(StuckKeys(rows, now))[i].id) <==> i < n
  {
    var todo := Sorted(StuckKeys(rows, now));
    if i < n {
      assert todo[..n][i].id == todo[i].id;
    } else {
      forall j | 0 <= j < n
        ensures todo[..n][j].id != todo[i].id
      {
        IdsAreDistinct(rows, now, i, j);
      }
    }
  }

  lemma RestRemains(rows: map<int, Row>, now: int, n: nat, i: nat)
    requires n <= |StuckKeys(rows, now)| && Known(rows, Sorted(StuckKeys(rows, now)))
    requires i < |Sorted(StuckKeys(rows, now))|
    ensures Remaining(rows, now, Sorted(StuckKeys(rows, now)), n, Sorted(StuckKeys(rows, now))[i]) <==> n <= i
  {
    var todo := Sorted(StuckKeys(rows, now));
    assert todo[i] in StuckKeys(rows, now);
    PlaceOfId(rows, now, n, i);
    ReconciledPointwise(rows, todo[..n], todo[i].id);
    UnfixedMembers(rows, todo[..n], todo[i].id);
  }

  lemma NothingElseRemains(rows: map<int, Row>, now: int, n: nat, k: Key)
    requires n <= |StuckKeys(rows, now)| && Known(rows, Sorted(StuckKeys(rows, now)))
    requires Remaining(rows, now, Sorted(StuckKeys(rows, now)), n, k)
    ensures k in StuckKeys(rows, now)
  {
    ReconciledPointwise(rows, Sorted(StuckKeys(rows, now))[..n], k.id);
  }

  /**
   * The heart of the sweep: after trying the first n rows of the order, the query that excludes the failed
   * ids returns exactly the rest, in order.
   */
  lemma RemainingCandidates(rows: map<int, Row>, now: int, n: nat)
    requires n <= |StuckKeys(rows, now)|
    ensures Known(rows, Sorted(StuckKeys(rows, now)))
    ensures var todo := Sorted(StuckKeys(rows, now));
            Candidates(Reconciled(rows, todo[..n]), now, Unfixed(rows, todo[..n])) == todo[n..]
  {
    StuckRowsAreKnown(rows, now);
    var todo := Sorted(StuckKeys(rows, now));
    var left := set k | k in StuckKeys(Reconciled(rows, todo[..n]), now) && k.id !in Unfixed(rows, todo[..n]);
    forall i | 0 <= i < |todo[n..]|
      ensures todo[n..][i] in left
    {
      RestRemains(rows, now, n, n + i);
    }
    forall k | k in left
      ensures k in todo[n..]
    {
      NothingElseRemains(rows, now, n, k);
      var i :| 0 <= i < |todo| && todo[i] == k;
      RestRemains(rows, now, n, i);
      assert todo[n..][i - n] == k;
    }
    SortedIsUnique(left, todo[n..]);
  }

  /** Where a sweep stands after trying the first `attempted` rows of the order it started from. */
  ghost predicate Progress(rows0: map<int, Row>, todo: seq<Key>, attempted: nat, swept: nat, failed: seq<int>, rows: map<int, Row>) {
    && Known(rows0, todo) && attempted <= |todo|
    && swept == Fixables(rows0, todo[..attempted])
    && failed == Unfixed(rows0, todo[..attempted])
    && rows == Reconciled(rows0, todo[..attempted])
  }

  /** Trying the next row of the order: what it finds there, and what either outcome leaves. */
  lemma Advance(rows0: map<int, Row>, todo: seq<Key>, n: nat, swept: nat, failed: seq<int>, rows: map<int, Row>)
    requires n < |todo| && Progress(rows0, todo, n, swept, failed, rows)
    ensures var id := todo[n].id;
            && id in rows && rows[id].fixable == rows0[id].fixable
            && if rows[id].fixable
               then Progress(rows0, todo, n + 1, swept + 1, failed, rows[id := rows[id].(status := TimedOut)])
               else Progress(rows0, todo, n + 1, swept, failed + [id], rows)
  {
    assert todo[..n + 1][..n] == todo[..n];
  }

  lemma StuckRowsAreKnown(rows: map<int, Row>, now: int)
    ensures Known(rows, Sorted(StuckKeys(rows, now)))
  {
    var todo := Sorted(StuckKeys(rows, now));
    forall i | 0 <= i < |todo|
      ensures todo[i].id in rows
    {
      assert todo[i] in todo;
    }
  }

  /** What the sweep's query returns midway through: the rest of the order it started from. */
  lemma CandidatesMidway(rows0: map<int, Row>, now: int, todo: seq<Key>, n: nat, swept: nat, failed: seq<int>, rows: map<int, Row>)
    requires todo == Sorted(StuckKeys(rows0, now)) && Progress(rows0, todo, n, swept, failed, rows)
    ensures Candidates(rows, now, failed) == todo[n..]
  {
    RemainingCandidates(rows0, now, n);
  }

  lemma ProgressAddsUp(rows0: map<int, Row>, todo: seq<Key>, n: nat, swept: nat, failed: seq<int>, rows: map<int, Row>)
    requires Progress(rows0, todo, n, swept, failed, rows)
    ensures swept + |failed| == n
  {
    UnfixedMembers(rows0, todo[..n], 0);
  }

  lemma NoProgressYet(rows: map<int, Row>, now: int)
    ensures Progress(rows, Sorted(StuckKeys(rows, now)), 0, 0, [], rows)
  {
    StuckRowsAreKnown(rows, now);
  }

  class RequestTable {
    var rows: map<int, Row>

    constructor (initial: map<int, Row>)
      ensures rows == initial
    {
      rows := initial;
    }

    /** One bounded batch of them. */
    method FindStuck(now: int, failed: seq<int>, take: nat) returns (batch: seq<Key>)
      ensures batch <= Candidates(rows, now, failed)
      ensures |batch| == Min(take, |Candidates(rows, now, failed)|)
    {
      var candidates := OrderBy((set k | k in StuckKeys(rows, now) && k.id !in failed));
      batch := candidates[..Min(take, |candidates|)];
    }

    /** Release and record as timed out, or throw and leave the row where it was. */
    method ReleaseAndRecord(id: int) returns (ok: bool)
      requires id in rows
      modifies this
      ensures ok == old(rows[id].fixable)
      ensures rows == if ok then old(rows)[id := old(rows[id]).(status := TimedOut)] else old(rows)
    {
      ok := rows[id].fixable;
      if ok {
        rows := rows[id := rows[id].(status := TimedOut)];
      }
    }

    /** Try a batch row by row, stopping at either bound. */
    method TryBatch(batch: seq<Key>, limit: nat, maxAttempts: nat, swept0: nat, failed0: seq<int>, attempted0: nat,
                    ghost rows0: map<int, Row>, ghost todo: seq<Key>)
      returns (swept: nat, failed: seq<int>, attempted: nat)
      requires batch != [] && swept0 < limit && attempted0 < maxAttempts
      requires attempted0 <= |todo| && batch <= todo[attempted0..]
      requires Progress(rows0, todo, attempted0, swept0, failed0, rows)
      modifies this
      ensures attempted0 < attempted <= |todo| && swept <= limit && attempted <= maxAttempts
      ensures Progress(rows0, todo, attempted, swept, failed, rows)
    {
      swept, failed, attempted := swept0, failed0, attempted0;
      var i := 0;
      while i < |batch| && swept < limit && attempted < maxAttempts
        invariant 0 <= i <= |batch| && attempted == attempted0 + i
        invariant Progress(rows0, todo, attempted, swept, failed, rows)
        invariant swept <= limit && attempted <= maxAttempts
        invariant i == 0 ==> swept < limit && attempted < maxAttempts
      {
        var id := batch[i].id;
        assert batch[i] == todo[attempted0..][i];
        assert id == todo[attempted].id;
        Advance(rows0, todo, attempted, swept, failed, rows);
        var ok := ReleaseAndRecord(id);
        attempted := attempted + 1;
        if ok {
          swept := swept + 1;
        } else {
          failed := failed + [id];
        }
        i := i + 1;
      }
    }

    /** Query for the next batch and try it. An empty batch means nothing is left. */
    method NextBatch(limit: nat, maxAttempts: nat, now: int, swept0: nat, failed0: seq<int>, attempted0: nat,
                     ghost rows0: map<int, Row>, ghost todo: seq<Key>)
      returns (swept: nat, failed: seq<int>, attempted: nat, exhausted: bool)
      requires swept0 < limit && attempted0 < maxAttempts
      requires todo == Sorted(StuckKeys(rows0, now)) && Progress(rows0, todo, attempted0, swept0, failed0, rows)
      modifies this
      ensures Progress(rows0, todo, attempted, swept, failed, rows)
      ensures swept <= limit && attempted <= maxAttempts
      ensures if exhausted then attempted == attempted0 == |todo| && swept == swept0 else attempted0 < attempted
    {
      CandidatesMidway(rows0, now, todo, attempted0, swept0, failed0, rows);
      var batch := FindStuck(now, failed0, Min(BATCH_SIZE, maxAttempts - attempted0));
      if batch == [] {
        return swept0, failed0, attempted0, true;
      }
      exhausted := false;
      swept, failed, attempted := TryBatch(batch, limit, maxAttempts, swept0, failed0, attempted0, rows0, todo);
    }

    /**
     * The batches amount to one pass over the stuck rows in order: each row is tried at most once, a failure
     * never comes back, and the pass stops only at its bounds or at the end of the order.
     */
    method SweepStuckRequests(limit: nat, maxAttempts: nat, now: int)
      returns (swept: nat, failed: seq<int>, attempted: nat, exhausted: bool)
      modifies this
      ensures Progress(old(rows), Sorted(StuckKeys(old(rows), now)), attempted, swept, failed, rows)
      ensures swept + |failed| == attempted && swept <= limit && attempted <= maxAttempts
      ensures attempted == |Sorted(StuckKeys(old(rows), now))| || swept == limit || attempted == maxAttempts
      ensures exhausted ==> attempted == |Sorted(StuckKeys(old(rows), now))|
      ensures exhausted <==> swept < limit && attempted < maxAttempts
    {
      ghost var rows0, todo := rows, Sorted(StuckKeys(rows, now));
      NoProgressYet(rows, now);
      swept, failed, attempted, exhausted := 0, [], 0, false;
      while swept < limit && attempted < maxAttempts && !exhausted
        invariant Progress(rows0, todo, attempted, swept, failed, rows)
        invariant swept <= limit && attempted <= maxAttempts
        invariant exhausted ==> attempted == |todo| && swept < limit && attempted < maxAttempts
        decreases maxAttempts - attempted, !exhausted
      {
        swept, failed, attempted, exhausted :=
          NextBatch(limit, maxAttempts, now, swept, failed, attempted, rows0, todo);
      }
      ProgressAddsUp(rows0, todo, attempted, swept, failed, rows);
    }
  }

  lemma {:induction false} FixablesMonotone(rows: map<int, Row>, q: seq<Key>, n: nat)
    requires Known(rows, q) && n <= |q|
    ensures Fixables(rows, q[..n]) <= Fixables(rows, q)
    ensures |Unfixed(rows, q[..n])| <= |Unfixed(rows, q)|
  {
    if n < |q| {
      var front := q[..|q| - 1];
      FixablesMonotone(rows, front, n);
      assert front[..n] == q[..n];
    } else {
      assert q[..n] == q;
    }
  }

  /**
   * No starvation: with at most `bad` unfixable rows among the stuck ones and room for `bad + limit`
   * attempts, a pass reconciles as many rows as the limit allows or as there are to fix.
   */
  lemma SweepNeverStarves(rows0: map<int, Row>, todo: seq<Key>, limit: nat, maxAttempts: nat, bad: nat,
                          attempted: nat, swept: nat, failed: seq<int>, rows: map<int, Row>)
    requires Progress(rows0, todo, attempted, swept, failed, rows)
    requires swept <= limit && (attempted == |todo| || swept == limit || attempted == maxAttempts)
    requires |Unfixed(rows0, todo)| <= bad && bad + limit <= maxAttempts
    ensures swept == Min(limit, Fixables(rows0, todo))
  {
    FixablesMonotone(rows0, todo, attempted);
    UnfixedMembers(rows0, todo[..attempted], 0);
    assert todo[..|todo|] == todo;
  }

  /** Exhausted means drained: every row that was stuck is now terminal or listed as failed. */
  lemma ExhaustedMeansDrained(rows: map<int, Row>, now: int, id: int)
    requires id in rows && rows[id].status == InFlight && rows[id].deadline < now
    ensures var todo := Sorted(StuckKeys(rows, now));
            && Known(rows, todo)
            && (Reconciled(rows, todo)[id].status == TimedOut <==> rows[id].fixable)
            && (id in Unfixed(rows, todo) <==> !rows[id].fixable)
  {
    var todo := Sorted(StuckKeys(rows, now));
    assert Key(rows[id].deadline, id) in todo;
    ReconciledPointwise(rows, todo, id);
    UnfixedMembers(rows, todo, id);
  }

  /** Rows the query does not select are never touched. */
  lemma OthersUntouched(rows: map<int, Row>, now: int, n: nat, id: int)
    requires n <= |StuckKeys(rows, now)| && id in rows
    requires rows[id].status != InFlight || now <= rows[id].deadline
    ensures Known(rows, Sorted(StuckKeys(rows, now))[..n])
         && Reconciled(rows, Sorted(StuckKeys(rows, now))[..n])[id] == rows[id]
  {
    ReconciledPointwise(rows, Sorted(StuckKeys(rows, now))[..n], id);
  }
}
