/**
 * Keyset paging over (sort value, id), in either direction. A row stands here for its place in the listing: its sort
 * value and id, both negated when the listing descends, so that every listing ascends by place. The cursor of a page
 * is the sort value and id of the last row shown, as they are printed: a time loses what it has below a millisecond.
 */
module KeysetPaging {
  import opened KeyOrder
  import opened Text

  /** `timed`: the sort value is a time, stored in microseconds and printed in milliseconds. */
  datatype Listing = Listing(descending: bool, timed: bool)

  /** The row at a place, and the place of a row: its own sort value and id, or both negated. */
  function Mirror(l: Listing, k: Key): (m: Key)
    ensures l.descending ==> m == Key(-k.value, -k.id)
    ensures !l.descending ==> m == k
  {
    if l.descending then Key(-k.value, -k.id) else k
  }

  /** A time as it is printed: rounded down to the millisecond, for times before 1970 too. */
  function Millisecond(time: int): int {
    time - time % 1000
  }

  /** The place a cursor made from the row at this place stands for. */
  function Printed(l: Listing, k: Key): Key {
    var row := Mirror(l, k);
    if l.timed then Mirror(l, Key(Millisecond(row.value), row.id)) else k
  }

  /** `next` is absent on the last page. */
  datatype Page = Page(items: seq<Key>, next: Option<Key>)

  function Min(a: int, b: int): int {
    if a < b then a else b
  }

  /** Strictly past the cursor: the sort value is, or it ties and the id is. */
  function Past(s: set<Key>, cursor: Option<Key>): (r: set<Key>)
    ensures forall k :: k in r <==> k in s && (cursor.None? || Less(cursor.value, k))
  {
    set k | k in s && (cursor.None? || Less(cursor.value, k))
  }

  /** Exactly the page a listing returns for these rows. */
  ghost predicate IsPage(l: Listing, s: set<Key>, cursor: Option<Key>, limit: nat, p: Page)
    requires 1 <= limit
  {
    var rows := Sorted(Past(s, cursor));
    && p.items == rows[..Min(limit, |rows|)]
    && (if |rows| > limit then p.next == Some(Printed(l, rows[limit - 1])) else p.next == None)
  }

  /** One row more than the page answers whether there is another. */
  method FetchPage(l: Listing, s: set<Key>, cursor: Option<Key>, limit: nat) returns (p: Page)
    requires 1 <= limit
    ensures IsPage(l, s, cursor, limit, p)
  {
    var all := OrderBy(Past(s, cursor));
    var rows := all[..Min(limit + 1, |all|)];
    var hasMore := |rows| > limit;
    var items := if hasMore then rows[..limit] else rows;
    p := Page(items, if hasMore then Some(Printed(l, items[|items| - 1])) else None);
  }

  // --- Where the printed cursor goes wrong -----------------------------------------------------------------

  /** Continuing after `last` from its printed cursor gets this row wrong: it is skipped, or shown again. */
  predicate Disturbs(l: Listing, last: Key, k: Key) {
    Less(last, k) != Less(Printed(l, last), k)
  }

  /** Newest first, a row goes missing exactly when it is older than the last row but not older than its printed time. */
  lemma SkippedExactly(l: Listing, last: Key, k: Key)
    requires l.timed && l.descending
    ensures var row, end := Mirror(l, k), Mirror(l, last);
            Disturbs(l, last, k) <==>
            Less(row, end) && (Millisecond(end.value) < row.value || (Millisecond(end.value) == row.value && end.id <= row.id))
    ensures Less(Printed(l, last), k) ==> Less(last, k)
  {
    var row, end := Mirror(l, k), Mirror(l, last);
    assert Less(last, k) <==> Less(row, end);
    assert Less(Printed(l, last), k) <==> Less(row, Key(Millisecond(end.value), end.id));
  }

  /** Oldest first, a row comes back exactly when it is not past the last row but past its printed time. */
  lemma ShownAgainExactly(l: Listing, last: Key, k: Key)
    requires l.timed && !l.descending
    ensures Disturbs(l, last, k) <==>
            !Less(last, k) && (Millisecond(last.value) < k.value || (Millisecond(last.value) == k.value && last.id < k.id))
    ensures Less(last, k) ==> Less(Printed(l, last), k)
    ensures Disturbs(l, last, last) <==> last.value % 1000 != 0
  {
  }

  /** Names and sizes are printed in full, so nothing goes wrong. */
  lemma PrintedInFull(l: Listing, last: Key, k: Key)
    requires !l.timed || last.value % 1000 == 0
    ensures Printed(l, last) == last && !Disturbs(l, last, k)
  {
    if l.timed {
      WholeEitherWay(last.value);
      assert Millisecond(Mirror(l, last).value) == Mirror(l, last).value;
    }
  }

  lemma WholeEitherWay(time: int)
    requires time % 1000 == 0
    ensures Millisecond(time) == time && Millisecond(-time) == -time
  {
    var n, m, r := time / 1000, -time / 1000, -time % 1000;
    assert time == 1000 * n && -time == 1000 * m + r;
    var k := -n - m;
    assert r == 1000 * k && 0 <= r < 1000;
    assert k == 0;
  }

  /**
   * A page ends badly, in terms of stored times only: newest first when a row still to come lies in the last row's
   * own millisecond, oldest first when the last row is not at the start of it.
   */
  ghost predicate CutsAMillisecond(l: Listing, s: set<Key>, last: Key) {
    l.timed &&
    if l.descending then exists k :: k in s && StillToCome(Mirror(l, last), Mirror(l, k)) else last.value % 1000 != 0
  }

  predicate StillToCome(end: Key, row: Key) {
    && Less(row, end) && Millisecond(row.value) == Millisecond(end.value)
    && !(row.value == Millisecond(end.value) && row.id < end.id)
  }

  lemma CutsExactly(l: Listing, s: set<Key>, last: Key)
    requires last in s
    ensures CutsAMillisecond(l, s, last) <==> exists k :: k in s && Disturbs(l, last, k)
  {
    if !l.timed {
      assert forall k :: !Disturbs(l, last, k);
    } else if l.descending {
      forall k
        ensures Disturbs(l, last, k) <==> StillToCome(Mirror(l, last), Mirror(l, k))
      {
        SkippedExactly(l, last, k);
        if Less(Mirror(l, k), Mirror(l, last)) {
          SameMillisecond(Mirror(l, k).value, Mirror(l, last).value);
        }
      }
    } else {
      ShownAgainExactly(l, last, last);
      if last.value % 1000 == 0 {
        assert Printed(l, last) == last;
      }
    }
  }

  /** An earlier time shares the millisecond exactly when it is not before its start. */
  lemma SameMillisecond(a: int, b: int)
    requires a <= b
    ensures Millisecond(a) == Millisecond(b) <==> Millisecond(b) <= a
  {
  }

  // --- A fixed table ---------------------------------------------------------------------------------------

  /** Pages obtained by following each cursor, the table being s_0, s_1, ... as they are fetched. */
  ghost predicate IsWalk(l: Listing, tables: seq<set<Key>>, cursor: Option<Key>, limit: nat, pages: seq<Page>)
    requires 1 <= limit
    decreases |pages|
  {
    && 0 < |pages| <= |tables|
    && IsPage(l, tables[0], cursor, limit, pages[0])
    && (if |pages| == 1 then pages[0].next.None?
        else pages[0].next.Some? && IsWalk(l, tables[1..], pages[0].next, limit, pages[1..]))
  }

  function Items(pages: seq<Page>): seq<Key> {
    if pages == [] then [] else pages[0].items + Items(pages[1..])
  }

  /** The last row of every page another one follows. */
  function Boundaries(pages: seq<Page>): seq<Key> {
    if |pages| <= 1 || pages[0].items == [] then [] else [pages[0].items[|pages[0].items| - 1]] + Boundaries(pages[1..])
  }

  ghost predicate Undisturbed(l: Listing, pages: seq<Page>, k: Key) {
    forall last :: last in Boundaries(pages) ==> !Disturbs(l, last, k)
  }

  lemma UndisturbedFrom(l: Listing, pages: seq<Page>, k: Key)
    requires 1 < |pages| && pages[0].items != []
    ensures Undisturbed(l, pages, k) <==>
            !Disturbs(l, pages[0].items[|pages[0].items| - 1], k) && Undisturbed(l, pages[1..], k)
  {
    var last, rest := pages[0].items[|pages[0].items| - 1], Boundaries(pages[1..]);
    assert Boundaries(pages) == [last] + rest;
    assert last == Boundaries(pages)[0];
    assert forall x :: x in rest ==> x in Boundaries(pages);
  }

  lemma PastTheLast(s: set<Key>, cursor: Option<Key>, n: nat)
    requires 0 < n <= |Sorted(Past(s, cursor))|
    ensures var rows := Sorted(Past(s, cursor));
            Sorted(Past(s, Some(rows[n - 1]))) == rows[n..]
  {
    var rows := Sorted(Past(s, cursor));
    var rest, last := rows[n..], rows[n - 1];
    forall i | 0 <= i < |rest|
      ensures rest[i] in Past(s, Some(last))
    {
      assert rows[n + i] in Past(s, cursor) && Less(rows[n - 1], rows[n + i]);
    }
    forall k | k in Past(s, Some(last))
      ensures k in rest
    {
      assert last in Past(s, cursor) && k in Past(s, cursor) && k in rows;
      var i :| 0 <= i < |rows| && rows[i] == k;
      assert Less(rows[n - 1], rows[i]);
      assert rest[i - n] == k;
    }
    SortedIsUnique(Past(s, Some(last)), rest);
  }

  lemma FullPage(l: Listing, s: set<Key>, cursor: Option<Key>, limit: nat, p: Page)
    requires 1 <= limit && IsPage(l, s, cursor, limit, p)
    ensures p.next.Some? ==> |p.items| == limit && p.items[limit - 1] in s
    ensures p.next.Some? ==> p.next == Some(Printed(l, p.items[limit - 1]))
    ensures p.next.Some? ==> Sorted(Past(s, cursor)) == p.items + Sorted(Past(s, Some(p.items[limit - 1])))
    ensures p.next.None? ==> p.items == Sorted(Past(s, cursor))
  {
    if p.next.Some? {
      PastTheLast(s, cursor, limit);
      var rows := Sorted(Past(s, cursor));
      assert rows == rows[..limit] + rows[limit..];
      assert rows[limit - 1] in Past(s, cursor);
    }
  }

  /** On a table that does not change, every page but the last is full. */
  lemma {:induction false} PagesAreFull(l: Listing, s: set<Key>, tables: seq<set<Key>>, cursor: Option<Key>, limit: nat, pages: seq<Page>)
    requires 1 <= limit && IsWalk(l, tables, cursor, limit, pages)
    ensures forall i :: 0 <= i < |pages| - 1 ==> |pages[i].items| == limit
    ensures (forall i :: 0 <= i < |tables| ==> tables[i] == s) ==> forall last :: last in Boundaries(pages) ==> last in s
    decreases |pages|
  {
    FullPage(l, tables[0], cursor, limit, pages[0]);
    if |pages| > 1 {
      PagesAreFull(l, s, tables[1..], pages[0].next, limit, pages[1..]);
      forall i | 0 <= i < |pages| - 1
        ensures |pages[i].items| == limit
      {
        if 0 < i {
          assert pages[i] == pages[1..][i - 1];
        }
      }
    }
  }

  lemma SamePast(l: Listing, s: set<Key>, last: Key)
    requires forall k :: k in s ==> !Disturbs(l, last, k)
    ensures Past(s, Some(Printed(l, last))) == Past(s, Some(last))
  {
    forall k | k in s
      ensures k in Past(s, Some(Printed(l, last))) <==> k in Past(s, Some(last))
    {
      assert !Disturbs(l, last, k);
    }
  }

  lemma UndisturbedRest(l: Listing, s: set<Key>, pages: seq<Page>)
    requires 1 < |pages| && pages[0].items != [] && forall k :: k in s ==> Undisturbed(l, pages, k)
    ensures forall k :: k in s ==> !Disturbs(l, pages[0].items[|pages[0].items| - 1], k)
    ensures forall k :: k in s ==> Undisturbed(l, pages[1..], k)
  {
    forall k | k in s
      ensures !Disturbs(l, pages[0].items[|pages[0].items| - 1], k) && Undisturbed(l, pages[1..], k)
    {
      UndisturbedFrom(l, pages, k);
    }
  }

  /** Where no boundary gets a row wrong, following the cursors yields every row once, in order. */
  lemma {:induction false} UndisturbedWalk(l: Listing, s: set<Key>, tables: seq<set<Key>>, cursor: Option<Key>, limit: nat, pages: seq<Page>)
    requires 1 <= limit && IsWalk(l, tables, cursor, limit, pages) && forall i :: 0 <= i < |tables| ==> tables[i] == s
    requires forall k :: k in s ==> Undisturbed(l, pages, k)
    ensures Items(pages) == Sorted(Past(s, cursor))
    decreases |pages|
  {
    assert tables[0] == s;
    FullPage(l, s, cursor, limit, pages[0]);
    if |pages| > 1 {
      UndisturbedRest(l, s, pages);
      SamePast(l, s, pages[0].items[limit - 1]);
      UndisturbedWalk(l, s, tables[1..], pages[0].next, limit, pages[1..]);
    } else {
      assert pages[1..] == [] && Items(pages[1..]) == [];
    }
  }

  // --- A table that changes while it is read ------------------------------------------------------------------

  lemma PageHolds(l: Listing, s: set<Key>, cursor: Option<Key>, limit: nat, p: Page, k: Key)
    requires 1 <= limit && IsPage(l, s, cursor, limit, p)
    ensures k in p.items <==> k in Past(s, cursor) && (p.next.Some? ==> !Less(p.items[limit - 1], k))
    ensures p.next.Some? ==> p.items[limit - 1] in Past(s, cursor)
  {
    var rows := Sorted(Past(s, cursor));
    if k in rows {
      var i :| 0 <= i < |rows| && rows[i] == k;
      if i < |p.items| {
        assert p.items[i] == k;
      }
      if p.next.Some? {
        assert limit <= i ==> Less(rows[limit - 1], rows[i]);
        assert i < limit - 1 ==> Less(rows[i], rows[limit - 1]);
      }
    }
    if p.next.Some? {
      assert rows[limit - 1] in Past(s, cursor);
    }
    if k in p.items {
      var i :| 0 <= i < |p.items| && p.items[i] == k;
      assert rows[i] == k;
    }
  }

  function Times(items: seq<Key>, k: Key): nat {
    if items == [] then 0 else (if items[0] == k then 1 else 0) + Times(items[1..], k)
  }

  lemma {:induction false} TimesConcat(a: seq<Key>, b: seq<Key>, k: Key)
    ensures Times(a + b, k) == Times(a, k) + Times(b, k)
  {
    if a == [] {
      assert a + b == b;
    } else {
      assert (a + b)[1..] == a[1..] + b;
      TimesConcat(a[1..], b, k);
    }
  }

  lemma {:induction false} OnceInAscending(q: seq<Key>, k: Key)
    requires Ascending(q)
    ensures Times(q, k) == if k in q then 1 else 0
  {
    if q != [] {
      OnceInAscending(q[1..], k);
      assert q == [q[0]] + q[1..];
      if k in q[1..] {
        var i :| 0 <= i < |q[1..]| && q[1..][i] == k;
        assert Less(q[0], q[i + 1]);
      }
    }
  }

  /** A page shows a row once if it holds it, and the others as often as they do. */
  lemma TimesFrom(l: Listing, tables: seq<set<Key>>, cursor: Option<Key>, limit: nat, pages: seq<Page>, k: Key)
    requires 1 <= limit && IsWalk(l, tables, cursor, limit, pages)
    ensures Times(Items(pages), k) == (if k in pages[0].items then 1 else 0) + Times(Items(pages[1..]), k)
  {
    assert Ascending(pages[0].items);
    OnceInAscending(pages[0].items, k);
    TimesConcat(pages[0].items, Items(pages[1..]), k);
  }

  predicate Ahead(cursor: Option<Key>, k: Key) {
    cursor.None? || Less(cursor.value, k)
  }

  /**
   * A row that is in the table throughout, with an unchanged sort value, while others are inserted, deleted or edited
   * between the pages: still ahead, it is shown exactly once if and only if no page ends where the printed cursor gets
   * it wrong; already passed, it stays away on the same condition. Newest first it is never shown twice, oldest first
   * never left out.
   */
  lemma {:induction false} StableRowShown(l: Listing, tables: seq<set<Key>>, cursor: Option<Key>, limit: nat, pages: seq<Page>, k: Key)
    requires 1 <= limit && IsWalk(l, tables, cursor, limit, pages) && forall i :: 0 <= i < |tables| ==> k in tables[i]
    ensures Ahead(cursor, k) ==> (Times(Items(pages), k) == 1 <==> Undisturbed(l, pages, k))
    ensures !Ahead(cursor, k) ==> (Times(Items(pages), k) == 0 <==> Undisturbed(l, pages, k))
    ensures l.descending ==> Times(Items(pages), k) <= if Ahead(cursor, k) then 1 else 0
    ensures !l.descending && Ahead(cursor, k) ==> 1 <= Times(Items(pages), k)
    decreases |pages|
  {
    assert k in tables[0];
    PageHolds(l, tables[0], cursor, limit, pages[0], k);
    TimesFrom(l, tables, cursor, limit, pages, k);
    if |pages| == 1 {
      assert Items(pages[1..]) == [];
    } else {
      assert forall i :: 0 <= i < |tables[1..]| ==> tables[1..][i] == tables[i + 1];
      StableRowShown(l, tables[1..], pages[0].next, limit, pages[1..], k);
      FullPage(l, tables[0], cursor, limit, pages[0]);
      UndisturbedFrom(l, pages, k);
      PrintedSide(l, pages[0].items[limit - 1], k);
    }
  }

  /** Newest first a printed cursor stands after the row it was made from, oldest first before it. */
  lemma PrintedSide(l: Listing, last: Key, k: Key)
    ensures l.descending && Less(Printed(l, last), k) ==> Less(last, k)
    ensures !l.descending && Less(last, k) ==> Less(Printed(l, last), k)
  {
    if l.timed && l.descending {
      SkippedExactly(l, last, k);
    }
  }

  /** With whole milliseconds, or a sort value printed in full, that is: exactly once. */
  lemma StableRowsAppearOnce(l: Listing, tables: seq<set<Key>>, cursor: Option<Key>, limit: nat, pages: seq<Page>, k: Key)
    requires 1 <= limit && IsWalk(l, tables, cursor, limit, pages) && forall i :: 0 <= i < |tables| ==> k in tables[i]
    requires Ahead(cursor, k)
    requires l.timed ==> forall i, x :: 0 <= i < |tables| && x in tables[i] ==> x.value % 1000 == 0
    ensures Times(Items(pages), k) == 1
  {
    StableRowShown(l, tables, cursor, limit, pages, k);
    BoundariesAreRows(l, tables, cursor, limit, pages);
    forall last | last in Boundaries(pages)
      ensures !Disturbs(l, last, k)
    {
      PrintedInFull(l, last, k);
    }
  }

  lemma {:induction false} BoundariesAreRows(l: Listing, tables: seq<set<Key>>, cursor: Option<Key>, limit: nat, pages: seq<Page>)
    requires 1 <= limit && IsWalk(l, tables, cursor, limit, pages)
    ensures forall last :: last in Boundaries(pages) ==> exists i :: 0 <= i < |tables| && last in tables[i]
    decreases |pages|
  {
    if |pages| > 1 {
      FullPage(l, tables[0], cursor, limit, pages[0]);
      BoundariesAreRows(l, tables[1..], pages[0].next, limit, pages[1..]);
      forall last | last in Boundaries(pages)
        ensures exists i :: 0 <= i < |tables| && last in tables[i]
      {
        if last in Boundaries(pages[1..]) {
          var i :| 0 <= i < |tables[1..]| && last in tables[1..][i];
          assert last in tables[i + 1];
        } else {
          assert last in tables[0];
        }
      }
    }
  }

  /**
   * The whole listing, from the top of a fixed table: the pages are full but for the last, and together they are
   * every row once, in order, if and only if no page but the last ends inside a millisecond a later row shares (newest
   * first), or inside one at all (oldest first).
   */
  lemma WholeListing(l: Listing, s: set<Key>, tables: seq<set<Key>>, limit: nat, pages: seq<Page>)
    requires 1 <= limit && IsWalk(l, tables, None, limit, pages) && forall i :: 0 <= i < |tables| ==> tables[i] == s
    ensures forall i :: 0 <= i < |pages| - 1 ==> |pages[i].items| == limit
    ensures Items(pages) == Sorted(s) <==> forall last :: last in Boundaries(pages) ==> !CutsAMillisecond(l, s, last)
  {
    PagesAreFull(l, s, tables, None, limit, pages);
    forall last | last in Boundaries(pages)
      ensures CutsAMillisecond(l, s, last) <==> exists k :: k in s && Disturbs(l, last, k)
    {
      CutsExactly(l, s, last);
    }
    if forall k :: k in s ==> Undisturbed(l, pages, k) {
      UndisturbedWalk(l, s, tables, None, limit, pages);
      assert Past(s, None) == s;
    } else {
      var k :| k in s && !Undisturbed(l, pages, k);
      StableRowShown(l, tables, None, limit, pages, k);
      OnceInAscending(Sorted(s), k);
    }
  }

  /** Two rows of one millisecond and a page of one: newest first, the second is never shown. */
  lemma SecondRowNeverShown() returns (pages: seq<Page>)
    ensures var s := {Key(-1500, -2), Key(-1200, -1)};
            IsWalk(Listing(true, true), [s, s], None, 1, pages) && Items(pages) == [Key(-1500, -2)]
  {
    var l, a, b := Listing(true, true), Key(-1500, -2), Key(-1200, -1);
    var s := {a, b};
    pages := [Page([a], Some(Key(-1000, -2))), Page([], None)];
    assert Past(s, None) == s;
    SortedIsUnique(s, [a, b]);
    assert Past(s, Some(Key(-1000, -2))) == {};
    SortedIsUnique(Past(s, Some(Key(-1000, -2))), []);
    assert pages[1..] == [Page([], None)] && pages[1..][1..] == [];
    assert [s, s][1..] == [s];
    assert IsWalk(l, [s, s][1..], Some(Key(-1000, -2)), 1, pages[1..]);
    assert Items(pages[1..]) == [];
  }
}
