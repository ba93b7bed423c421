/** Following the cursors over a table that does not change: when that lists the whole table, and when it ends at all. */
module FixedListing {
  import opened KeyOrder
  import opened KeysetPaging
  import opened Text

  ghost function PageOf(l: Listing, s: set<Key>, cursor: Option<Key>, limit: nat): (p: Page)
    requires 1 <= limit
    ensures forall q :: IsPage(l, s, cursor, limit, q) <==> q == p
  {
    var rows := Sorted(Past(s, cursor));
    Page(rows[..Min(limit, |rows|)], if |rows| > limit then Some(Printed(l, rows[limit - 1])) else None)
  }

  /** The pages from a cursor to the end. */
  ghost predicate Follows(l: Listing, s: set<Key>, cursor: Option<Key>, limit: nat, pages: seq<Page>)
    requires 1 <= limit
    decreases |pages|
  {
    && pages != [] && pages[0] == PageOf(l, s, cursor, limit)
    && (if |pages| == 1 then pages[0].next.None? else pages[0].next.Some? && Follows(l, s, pages[0].next, limit, pages[1..]))
  }

  lemma {:induction false} FollowsIsWalk(l: Listing, s: set<Key>, tables: seq<set<Key>>, cursor: Option<Key>, limit: nat, pages: seq<Page>)
    requires 1 <= limit && |pages| <= |tables| && forall i :: 0 <= i < |tables| ==> tables[i] == s
    ensures Follows(l, s, cursor, limit, pages) <==> IsWalk(l, tables, cursor, limit, pages)
    decreases |pages|
  {
    if pages != [] {
      assert tables[0] == s;
      FollowsIsWalk(l, s, tables[1..], pages[0].next, limit, pages[1..]);
    }
  }

  /** There is only one way to follow them. */
  lemma {:induction false} WalksAgree(l: Listing, s: set<Key>, cursor: Option<Key>, limit: nat, a: seq<Page>, b: seq<Page>)
    requires 1 <= limit && Follows(l, s, cursor, limit, a) && Follows(l, s, cursor, limit, b)
    ensures a == b
    decreases |a|
  {
    if |a| > 1 {
      WalksAgree(l, s, a[0].next, limit, a[1..], b[1..]);
    }
    assert a == [a[0]] + a[1..] && b == [b[0]] + b[1..];
  }

  /** What a page with another one after it leaves: the rows past its last row, and the cursor printed from that one. */
  lemma PageLeaves(l: Listing, s: set<Key>, cursor: Option<Key>, limit: nat)
    requires 1 <= limit < |Sorted(Past(s, cursor))|
    ensures var rows := Sorted(Past(s, cursor));
            && PageOf(l, s, cursor, limit) == Page(rows[..limit], Some(Printed(l, rows[limit - 1])))
            && rows[limit - 1] in s && (cursor.None? || Less(cursor.value, rows[limit - 1]))
            && Sorted(Past(s, Some(rows[limit - 1]))) == rows[limit..] && rows == rows[..limit] + rows[limit..]
  {
    var rows := Sorted(Past(s, cursor));
    PastTheLast(s, cursor, limit);
    assert rows[limit - 1] in Past(s, cursor);
  }

  // --- The whole table -----------------------------------------------------------------------------------------

  /** Cut into pages, the listing has no page but the last that ends inside a millisecond it must not end in. */
  ghost predicate Clean(l: Listing, s: set<Key>, limit: nat, rows: seq<Key>)
    requires 1 <= limit
    decreases |rows|
  {
    |rows| > limit ==> !CutsAMillisecond(l, s, rows[limit - 1]) && Clean(l, s, limit, rows[limit..])
  }

  /** After a clean boundary the next page starts where this one ended. */
  lemma CleanBoundary(l: Listing, s: set<Key>, cursor: Option<Key>, limit: nat)
    requires 1 <= limit < |Sorted(Past(s, cursor))| && !CutsAMillisecond(l, s, Sorted(Past(s, cursor))[limit - 1])
    ensures var p, rows := PageOf(l, s, cursor, limit), Sorted(Past(s, cursor));
            && p.items == rows[..limit] && p.next.Some? && Sorted(Past(s, p.next)) == rows[limit..]
            && rows == rows[..limit] + rows[limit..]
  {
    var last := Sorted(Past(s, cursor))[limit - 1];
    PageLeaves(l, s, cursor, limit);
    CutsExactly(l, s, last);
    SamePast(l, s, last);
  }

  lemma {:induction false} CleanWalk(l: Listing, s: set<Key>, cursor: Option<Key>, limit: nat) returns (pages: seq<Page>)
    requires 1 <= limit && Clean(l, s, limit, Sorted(Past(s, cursor)))
    ensures Follows(l, s, cursor, limit, pages) && Items(pages) == Sorted(Past(s, cursor))
    decreases |Sorted(Past(s, cursor))|
  {
    var p, rows := PageOf(l, s, cursor, limit), Sorted(Past(s, cursor));
    if |rows| > limit {
      CleanBoundary(l, s, cursor, limit);
      var rest := CleanWalk(l, s, p.next, limit);
      pages := [p] + rest;
      assert pages[1..] == rest;
    } else {
      pages := [p];
      assert p.items == rows && pages[1..] == [] && Items(pages[1..]) == [];
    }
  }

  lemma {:induction false} WholeIsClean(l: Listing, s: set<Key>, cursor: Option<Key>, limit: nat, pages: seq<Page>)
    requires 1 <= limit && Follows(l, s, cursor, limit, pages)
    requires forall last :: last in Boundaries(pages) ==> !CutsAMillisecond(l, s, last)
    ensures Clean(l, s, limit, Sorted(Past(s, cursor)))
    decreases |pages|
  {
    var rows := Sorted(Past(s, cursor));
    if |rows| > limit {
      PageLeaves(l, s, cursor, limit);
      assert pages[0].items[|pages[0].items| - 1] == rows[limit - 1];
      assert Boundaries(pages) == [rows[limit - 1]] + Boundaries(pages[1..]);
      assert Boundaries(pages)[0] == rows[limit - 1];
      CleanBoundary(l, s, cursor, limit);
      forall last | last in Boundaries(pages[1..])
        ensures !CutsAMillisecond(l, s, last)
      {
        assert last in Boundaries(pages);
      }
      WholeIsClean(l, s, pages[0].next, limit, pages[1..]);
    }
  }

  ghost predicate ListsAll(l: Listing, s: set<Key>, limit: nat, pages: seq<Page>)
    requires 1 <= limit
  {
    Follows(l, s, None, limit, pages) && Items(pages) == Sorted(s)
  }

  /**
   * In either direction and by any column: following the cursors from the top comes to an end having shown every row
   * once, in order, if and only if the table itself, cut into pages of this size, cuts no millisecond it must not.
   */
  lemma ListingIsWholeIff(l: Listing, s: set<Key>, limit: nat)
    requires 1 <= limit
    ensures (exists pages :: ListsAll(l, s, limit, pages)) <==> Clean(l, s, limit, Sorted(s))
  {
    assert Past(s, None) == s;
    if Clean(l, s, limit, Sorted(s)) {
      var pages := CleanWalk(l, s, None, limit);
      assert ListsAll(l, s, limit, pages);
    }
    if pages :| ListsAll(l, s, limit, pages) {
      var tables := seq(|pages|, i requires 0 <= i < |pages| => s);
      FollowsIsWalk(l, s, tables, None, limit, pages);
      WholeListing(l, s, tables, limit, pages);
      WholeIsClean(l, s, None, limit, pages);
    }
  }

  // --- An end at all -------------------------------------------------------------------------------------------

  function InMillisecond(s: set<Key>, at: int): set<Key> {
    set k | k in s && Millisecond(k.value) == at
  }

  /**
   * Listings that come to an end: newest first, by a column printed in full, over whole milliseconds only, or with
   * fewer rows in every millisecond than a page holds.
   */
  ghost predicate MovesOn(l: Listing, s: set<Key>, limit: nat) {
    || l.descending || !l.timed
    || (forall k :: k in s ==> k.value % 1000 == 0)
    || (forall at :: |InMillisecond(s, at)| < limit)
  }

  /** A page with rows of an earlier millisecond than its last drops them. */
  lemma SparsePageMovesOn(l: Listing, s: set<Key>, cursor: Option<Key>, limit: nat)
    requires l.timed && !l.descending && 1 <= limit < |Sorted(Past(s, cursor))|
    requires forall at :: |InMillisecond(s, at)| < limit
    ensures Past(s, PageOf(l, s, cursor, limit).next) < Past(s, cursor)
  {
    var rows := Sorted(Past(s, cursor));
    var first, last := rows[0], rows[limit - 1];
    PageLeaves(l, s, cursor, limit);
    assert first in Past(s, cursor);
    var from := Millisecond(last.value);
    if from <= first.value {
      forall k | k in FirstRows(rows, limit)
        ensures k in InMillisecond(s, from)
      {
        var i :| 0 <= i < limit && rows[i] == k;
        assert rows[i] in Past(s, cursor);
        assert i == 0 || Less(first, rows[i]);
        assert i == limit - 1 || Less(rows[i], last);
        SameMillisecond(k.value, last.value);
      }
      FirstRowsCount(rows, limit);
      Fewer(FirstRows(rows, limit), InMillisecond(s, from));
    }
    var next := Printed(l, last);
    assert Less(first, next) && first !in Past(s, Some(next));
    assert cursor.None? || Less(cursor.value, next);
  }

  lemma PageMovesOn(l: Listing, s: set<Key>, cursor: Option<Key>, limit: nat)
    requires 1 <= limit < |Sorted(Past(s, cursor))| && MovesOn(l, s, limit)
    ensures |Past(s, PageOf(l, s, cursor, limit).next)| < |Past(s, cursor)|
  {
    var last := Sorted(Past(s, cursor))[limit - 1];
    PageLeaves(l, s, cursor, limit);
    if l.descending || !l.timed || last.value % 1000 == 0 {
      forall k | k in Past(s, Some(Printed(l, last)))
        ensures k in Past(s, Some(last))
      {
        if l.descending {
          PrintedSide(l, last, k);
        } else {
          PrintedInFull(l, last, k);
        }
      }
      Fewer(Past(s, Some(Printed(l, last))), Past(s, Some(last)));
    } else {
      SparsePageMovesOn(l, s, cursor, limit);
      var next := PageOf(l, s, cursor, limit).next;
      var k :| k in Past(s, cursor) && k !in Past(s, next);
      Fewer(Past(s, next), Past(s, cursor) - {k});
    }
  }

  /** These end, within as many pages as there are rows, and one. */
  lemma {:induction false} WalkEnds(l: Listing, s: set<Key>, cursor: Option<Key>, limit: nat) returns (pages: seq<Page>)
    requires 1 <= limit && MovesOn(l, s, limit)
    ensures Follows(l, s, cursor, limit, pages) && |pages| <= |Past(s, cursor)| + 1
    decreases |Past(s, cursor)|
  {
    var p := PageOf(l, s, cursor, limit);
    if p.next.None? {
      pages := [p];
    } else {
      PageMovesOn(l, s, cursor, limit);
      var rest := WalkEnds(l, s, p.next, limit);
      pages := [p] + rest;
      assert pages[1..] == rest;
    }
  }

  /** As many rows strictly inside one millisecond as a page holds, and one more row there or later. */
  ghost predicate Crowds(s: set<Key>, limit: nat, at: int, crowd: set<Key>) {
    && crowd <= s && at % 1000 == 0 && (forall k :: k in crowd ==> at < k.value < at + 1000)
    && limit <= |crowd| && (limit < |crowd| || exists k :: k in s && at + 1000 <= k.value)
  }

  lemma MoreFollow(s: set<Key>, cursor: Option<Key>, limit: nat, at: int, crowd: set<Key>)
    requires Crowds(s, limit, at, crowd) && (cursor.None? || cursor.value.value <= at)
    ensures crowd <= Past(s, cursor) && limit < |Sorted(Past(s, cursor))|
  {
    assert crowd <= Past(s, cursor);
    if limit < |crowd| {
      Fewer(crowd, Past(s, cursor));
    } else {
      var k :| k in s && at + 1000 <= k.value;
      assert k in Past(s, cursor) && k !in crowd;
      Fewer(crowd + {k}, Past(s, cursor));
    }
  }

  /** A page that starts at or before that millisecond is followed by another that does. */
  lemma EarlyPageStaysEarly(s: set<Key>, cursor: Option<Key>, limit: nat, at: int, crowd: set<Key>)
    requires 1 <= limit && Crowds(s, limit, at, crowd) && (cursor.None? || cursor.value.value <= at)
    ensures limit < |Sorted(Past(s, cursor))| && Millisecond(Sorted(Past(s, cursor))[limit - 1].value) <= at
  {
    MoreFollow(s, cursor, limit, at, crowd);
    var rows := Sorted(Past(s, cursor));
    if at + 1000 <= rows[limit - 1].value {
      forall k | k in crowd
        ensures k in FirstRows(rows, limit - 1)
      {
        assert k in rows;
        var i :| 0 <= i < |rows| && rows[i] == k;
        assert !Less(rows[limit - 1], rows[i]);
      }
      FirstRowsCount(rows, limit - 1);
      Fewer(crowd, FirstRows(rows, limit - 1));
    }
  }

  /** By time oldest first, such a table has no end: from the top, or from any cursor that is not past the crowd. */
  lemma {:induction false} CrowdedMillisecondNeverEnds(l: Listing, s: set<Key>, cursor: Option<Key>, limit: nat, pages: seq<Page>,
                                                       at: int, crowd: set<Key>)
    requires l.timed && !l.descending && 1 <= limit && Crowds(s, limit, at, crowd)
    requires cursor.None? || cursor.value.value <= at
    ensures !Follows(l, s, cursor, limit, pages)
    decreases |pages|
  {
    if Follows(l, s, cursor, limit, pages) {
      EarlyPageStaysEarly(s, cursor, limit, at, crowd);
      CrowdedMillisecondNeverEnds(l, s, pages[0].next, limit, pages[1..], at, crowd);
    }
  }

  /** One row inside a millisecond, a later one and a page of one: oldest first the later one is never reached. */
  lemma TwoRowsNeverEnd(pages: seq<Page>)
    ensures !Follows(Listing(false, true), {Key(1500, 1), Key(3000, 2)}, None, 1, pages)
  {
    var s := {Key(1500, 1), Key(3000, 2)};
    assert Key(3000, 2) in s;
    assert Crowds(s, 1, 1000, {Key(1500, 1)});
    CrowdedMillisecondNeverEnds(Listing(false, true), s, None, 1, pages, 1000, {Key(1500, 1)});
  }

  // --- How far one has to look -------------------------------------------------------------------------------

  function PrintedRows(l: Listing, s: set<Key>): set<Key> {
    set k | k in s :: Printed(l, k)
  }

  lemma {:induction false} FewerPrinted(l: Listing, s: set<Key>)
    ensures |PrintedRows(l, s)| <= |s|
    decreases |s|
  {
    if s != {} {
      var k :| k in s;
      FewerPrinted(l, s - {k});
      assert PrintedRows(l, s) == PrintedRows(l, s - {k}) + {Printed(l, k)};
    }
  }

  function Cursors(pages: seq<Page>): set<Key> {
    if pages == [] then {}
    else Cursors(pages[1..]) + if pages[0].next.Some? then {pages[0].next.value} else {}
  }

  /** Every cursor handed out on the way starts the rest of the way. */
  lemma {:induction false} FollowsFrom(l: Listing, s: set<Key>, cursor: Option<Key>, limit: nat, pages: seq<Page>, c: Key) returns (rest: seq<Page>)
    requires 1 <= limit && Follows(l, s, cursor, limit, pages) && c in Cursors(pages)
    ensures Follows(l, s, Some(c), limit, rest) && |rest| < |pages|
    decreases |pages|
  {
    if pages[0].next == Some(c) {
      rest := pages[1..];
    } else {
      rest := FollowsFrom(l, s, pages[0].next, limit, pages[1..], c);
    }
  }

  /** So on a way that ends no cursor comes back. */
  lemma {:induction false} CursorsDiffer(l: Listing, s: set<Key>, cursor: Option<Key>, limit: nat, pages: seq<Page>)
    requires 1 <= limit && Follows(l, s, cursor, limit, pages)
    ensures |Cursors(pages)| == |pages| - 1 && Cursors(pages) <= PrintedRows(l, s)
    ensures cursor.Some? ==> cursor.value !in Cursors(pages)
    decreases |pages|
  {
    if |pages| > 1 {
      PageLeaves(l, s, cursor, limit);
      CursorsDiffer(l, s, pages[0].next, limit, pages[1..]);
    } else {
      assert pages[1..] == [];
    }
    if cursor.Some? && cursor.value in Cursors(pages) {
      var rest := FollowsFrom(l, s, cursor, limit, pages, cursor.value);
      WalksAgree(l, s, cursor, limit, pages, rest);
    }
  }

  ghost predicate EndsWithin(l: Listing, s: set<Key>, limit: nat, n: nat)
    requires 1 <= limit
  {
    exists pages :: Follows(l, s, None, limit, pages) && |pages| <= n
  }

  /** Whether a listing ends is decided within one page more than the table has rows: later than that, it never does. */
  lemma EndsSoonOrNever(l: Listing, s: set<Key>, limit: nat, pages: seq<Page>)
    requires 1 <= limit && Follows(l, s, None, limit, pages)
    ensures |pages| <= |s| + 1
    ensures EndsWithin(l, s, limit, |s| + 1)
  {
    CursorsDiffer(l, s, None, limit, pages);
    FewerPrinted(l, s);
    Fewer(Cursors(pages), PrintedRows(l, s));
  }
}
