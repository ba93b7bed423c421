/** A sort column with the row id as tie-break: the total order behind every bounded query. */
module KeyOrder {

  datatype Key = Key(value: int, id: int)

  predicate Less(a: Key, b: Key) {
    a.value < b.value || (a.value == b.value && a.id < b.id)
  }

  predicate IsLeast(s: set<Key>, k: Key) {
    k in s && forall x :: x in s ==> x == k || Less(k, x)
  }

  lemma {:induction false} LeastExists(s: set<Key>)
    requires s != {}
    ensures exists k :: IsLeast(s, k)
    decreases |s|
  {
    var a :| a in s;
    if s == {a} {
      assert IsLeast(s, a);
    } else {
      LeastExists(s - {a});
      var b :| IsLeast(s - {a}, b);
      var k := if Less(a, b) then a else b;
      forall x | x in s
        ensures x == k || Less(k, x)
      {
        assert x == a || x in s - {a};
      }
      assert IsLeast(s, k);
    }
  }

  ghost predicate Ascending(q: seq<Key>) {
    forall i, j :: 0 <= i < j < |q| ==> Less(q[i], q[j])
  }

  /** The list holds exactly these rows. */
  ghost predicate Holds(q: seq<Key>, s: set<Key>) {
    && (forall i :: 0 <= i < |q| ==> q[i] in s)
    && (forall k :: k in s ==> k in q)
  }

  ghost predicate InOrder(q: seq<Key>, s: set<Key>) {
    Ascending(q) && Holds(q, s)
  }

  lemma TailOfAscending(s: set<Key>, q: seq<Key>)
    requires q != [] && Ascending(q) && Holds(q, s)
    ensures IsLeast(s, q[0]) && Ascending(q[1..]) && Holds(q[1..], s - {q[0]})
  {
    forall x | x in s
      ensures x == q[0] || (Less(q[0], x) && x in q[1..])
    {
      var j :| 0 <= j < |q| && q[j] == x;
      if 0 < j {
        assert q[1..][j - 1] == x;
      }
    }
    forall j | 0 <= j < |q[1..]|
      ensures q[1..][j] in s - {q[0]}
    {
      assert Less(q[0], q[j + 1]);
    }
  }

  lemma EmptyLists(q: seq<Key>, s: set<Key>)
    requires Holds(q, s)
    ensures q == [] <==> s == {}
  {
    if q != [] {
      assert q[0] in s;
    }
    if s != {} {
      var k :| k in s;
      assert k in q;
    }
  }

  lemma {:induction false} SameRows(p: seq<Key>, q: seq<Key>, s: set<Key>)
    requires Ascending(p) && Ascending(q) && Holds(p, s) && Holds(q, s)
    ensures |p| == |q| && forall i :: 0 <= i < |p| ==> p[i] == q[i]
    decreases |p|
  {
    if p == [] {
      EmptyLists(p, s);
      EmptyLists(q, s);
    } else {
      assert p[0] in s;
      assert p[0] in q;
      TailOfAscending(s, p);
      TailOfAscending(s, q);
      assert p[0] == q[0];
      SameRows(p[1..], q[1..], s - {p[0]});
      forall i | 0 <= i < |p|
        ensures p[i] == q[i]
      {
        if 0 < i {
          assert p[i] == p[1..][i - 1] && q[i] == q[1..][i - 1];
        }
      }
    }
  }

  lemma {:induction false} SortedExists(s: set<Key>) returns (q: seq<Key>)
    ensures InOrder(q, s) && |q| == |s|
    decreases |s|
  {
    if s == {} {
      q := [];
    } else {
      LeastExists(s);
      var k :| IsLeast(s, k);
      var rest := SortedExists(s - {k});
      q := [k] + rest;
      assert forall i :: 0 <= i < |rest| ==> rest[i] in s - {k};
      forall x | x in s
        ensures x in q
      {
        assert x == k || x in s - {k};
      }
    }
  }

  lemma SortedIsWellDefined(s: set<Key>)
    ensures exists q :: InOrder(q, s) && |q| == |s|
    ensures forall p, q :: InOrder(p, s) && InOrder(q, s) ==> p == q
  {
    var q := SortedExists(s);
    forall p, q | InOrder(p, s) && InOrder(q, s)
      ensures p == q
    {
      SameRows(p, q, s);
    }
  }

  /** The rows of a table in order. */
  ghost function Sorted(s: set<Key>): (q: seq<Key>)
    ensures |q| == |s| && Ascending(q) && Holds(q, s)
  {
    SortedIsWellDefined(s);
    var q :| InOrder(q, s) && |q| == |s|;
    q
  }

  /** Order determines the sequence: an ascending list of exactly the rows is the sorted one. */
  lemma SortedIsUnique(s: set<Key>, q: seq<Key>)
    requires Ascending(q) && Holds(q, s)
    ensures q == Sorted(s)
  {
    SameRows(q, Sorted(s), s);
  }

  lemma Fewer(a: set<Key>, b: set<Key>)
    requires a <= b
    ensures |a| <= |b|
  {
    assert b == a + (b - a);
  }

  function FirstRows(q: seq<Key>, n: nat): (s: set<Key>)
    requires n <= |q|
    ensures forall k :: k in s <==> exists i :: 0 <= i < n && q[i] == k
  {
    set i | 0 <= i < n :: q[i]
  }

  lemma {:induction false} FirstRowsCount(q: seq<Key>, n: nat)
    requires Ascending(q) && n <= |q|
    ensures |FirstRows(q, n)| == n
  {
    if n > 0 {
      FirstRowsCount(q, n - 1);
      assert FirstRows(q, n) == FirstRows(q, n - 1) + {q[n - 1]};
    }
  }

  /** What `orderBy` does: pick the least row that is left, until none is. */
  method OrderBy(s: set<Key>) returns (q: seq<Key>)
    ensures q == Sorted(s)
  {
    q := [];
    var left := s;
    while left != {}
      invariant left <= s && Ascending(q) && Holds(q, s - left)
      invariant forall i, k :: 0 <= i < |q| && k in left ==> Less(q[i], k)
      decreases |left|
    {
      LeastExists(left);
      var k :| k in left && IsLeast(left, k);
      ghost var before := q;
      q := q + [k];
      left := left - {k};
      forall x | x in s - left
        ensures x in q
      {
        assert x == k || x in before;
      }
    }
    assert s - left == s;
    SortedIsUnique(s, q);
  }
}
