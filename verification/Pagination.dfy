/**
 * Keyset pagination: pages of a list in descending (sort value, id) order, each
 * fetched below the last row of the one before.
 *
 * Ids are numbers in the order the database compares them; sort values are instants.
 */
module Pagination {
  import opened Options

  const MAX_LIMIT := 100

  datatype Row = Row(t: int, id: nat, body: string)
  datatype Cursor = Cursor(t: int, i: nat)
  datatype Page = Page(data: seq<Row>, hasMore: bool, nextCursor: Option<Cursor>)

  type Table = seq<Row>  // in any order

  function KeyOf(r: Row): (result: Cursor) { Cursor(r.t, r.id) }

  /// ## Queries and pages

  /** Key `a` comes strictly after `b` in the list. */
  predicate After(a: Cursor, b: Cursor) {
    a.t < b.t || (a.t == b.t && a.i < b.i)
  }

  function CursorWhere(rows: Table, c: Cursor): (r: Table) {
    if rows == [] then []
    else (if After(KeyOf(rows[0]), c) then [rows[0]] else []) + CursorWhere(rows[1..], c)
  }

  function Inserted(r: Row, rows: Table): (result: Table) {
    if rows == [] || !After(KeyOf(r), KeyOf(rows[0])) then [r] + rows else [rows[0]] + Inserted(r, rows[1..])
  }

  /** `ORDER BY t DESC, id DESC` */
  function KeysetOrderBy(rows: Table): (r: Table) {
    if rows == [] then [] else Inserted(rows[0], KeysetOrderBy(rows[1..]))
  }

  function Cap(limit: int): (r: nat) {
    if limit < 1 then 1 else if limit > MAX_LIMIT then MAX_LIMIT else limit
  }

  function TakePlusOne(limit: int): (r: nat) { Cap(limit) + 1 }

  function Take(rows: Table, n: nat): (r: Table) {
    if |rows| <= n then rows else rows[..n]
  }

  function SlicePage(rows: Table, limit: int): (r: Page) {
    var hasMore := |rows| > Cap(limit);
    var data := if hasMore then rows[..Cap(limit)] else rows;
    Page(data, hasMore, if hasMore then Some(KeyOf(data[|data| - 1])) else None)
  }

  /** Everything below a cursor, in order: what a walk should return. */
  function Below(table: Table, c: Cursor): (r: Table) {
    KeysetOrderBy(CursorWhere(table, c))
  }

  function FetchPage(table: Table, c: Cursor, limit: int): (r: Page) {
    SlicePage(Take(Below(table, c), TakePlusOne(limit)), limit)
  }

  /// ## The order

  predicate UniqueIds(rows: Table) {
    forall i: nat, j: nat :: i < j < |rows| ==> rows[i].id != rows[j].id
  }

  predicate Descending(rows: Table) {
    forall i: nat, j: nat :: i < j < |rows| ==> After(KeyOf(rows[j]), KeyOf(rows[i]))
  }

  lemma {:induction false} InsertedMembers(r: Row, rows: Table, x: Row)
    ensures x in Inserted(r, rows) <==> x == r || x in rows
  {
    if rows != [] && After(KeyOf(r), KeyOf(rows[0])) { InsertedMembers(r, rows[1..], x); }
  }

  lemma {:induction false} InsertedDescending(r: Row, rows: Table)
    requires Descending(rows) && forall x <- rows :: KeyOf(x) != KeyOf(r)
    ensures Descending(Inserted(r, rows))
  {
    if rows != [] {
      if After(KeyOf(r), KeyOf(rows[0])) {
        InsertedDescending(r, rows[1..]);
        forall x | x in Inserted(r, rows[1..]) ensures After(KeyOf(x), KeyOf(rows[0])) {
          InsertedMembers(r, rows[1..], x);
        }
      } else {
        assert KeyOf(rows[0]) != KeyOf(r);
      }
    }
  }

  lemma {:induction false} OrderMembers(rows: Table, x: Row)
    ensures x in KeysetOrderBy(rows) <==> x in rows
  {
    if rows != [] {
      InsertedMembers(rows[0], KeysetOrderBy(rows[1..]), x);
      OrderMembers(rows[1..], x);
    }
  }

  lemma {:induction false} OrderDescends(rows: Table)
    requires UniqueIds(rows)
    ensures Descending(KeysetOrderBy(rows))
  {
    if rows != [] {
      OrderDescends(rows[1..]);
      forall x | x in KeysetOrderBy(rows[1..]) ensures KeyOf(x) != KeyOf(rows[0]) {
        OrderMembers(rows[1..], x);
        assert x in rows[1..];
      }
      InsertedDescending(rows[0], KeysetOrderBy(rows[1..]));
    }
  }

  lemma {:induction false} WhereMembers(rows: Table, c: Cursor, x: Row)
    ensures x in CursorWhere(rows, c) <==> x in rows && After(KeyOf(x), c)
  {
    if rows != [] { WhereMembers(rows[1..], c, x); }
  }

  lemma {:induction false} WhereKeepsIds(rows: Table, c: Cursor)
    requires UniqueIds(rows)
    ensures UniqueIds(CursorWhere(rows, c))
  {
    if rows != [] {
      WhereKeepsIds(rows[1..], c);
      forall x | x in CursorWhere(rows[1..], c) ensures x.id != rows[0].id {
        WhereMembers(rows[1..], c, x);
        assert x in rows[1..];
      }
    }
  }

  lemma BelowMembers(table: Table, c: Cursor, x: Row)
    ensures x in Below(table, c) <==> x in table && After(KeyOf(x), c)
  {
    OrderMembers(CursorWhere(table, c), x);
    WhereMembers(table, c, x);
  }

  lemma BelowDescends(table: Table, c: Cursor)
    requires UniqueIds(table)
    ensures Descending(Below(table, c))
  {
    WhereKeepsIds(table, c);
    OrderDescends(CursorWhere(table, c));
  }

  /** The order leaves no choice: descending lists with the same rows are equal. */
  lemma {:induction false} OrderIsUnique(a: Table, b: Table)
    requires Descending(a) && Descending(b) && forall x :: x in a <==> x in b
    ensures a == b
  {
    assert b != [] ==> b[0] in b;
    if a != [] {
      assert a[0] in a && a[0] in b;
      assert b[0] in b && b[0] in a;
      forall x ensures x in a[1..] <==> x in b[1..] {
        TailMembers(a, x);
        TailMembers(b, x);
      }
      OrderIsUnique(a[1..], b[1..]);
    }
  }

  lemma TailMembers(a: Table, x: Row)
    requires Descending(a) && a != []
    ensures x in a[1..] <==> x in a && x != a[0]
  {
    if x in a && x != a[0] {
      var i: nat :| i < |a| && a[i] == x;
      assert a[1..][i - 1] == x;
    }
  }

  lemma KeysDiffer(rows: Table, i: nat, j: nat)
    requires Descending(rows) && i < |rows| && j < |rows| && KeyOf(rows[i]) == KeyOf(rows[j])
    ensures i == j
  {
  }

  /// ## One page

  /** A page is the top of the list below its cursor, cut at the limit; more is promised exactly when rows are left. */
  lemma PageIsPrefix(table: Table, c: Cursor, limit: int)
    ensures var p := FetchPage(table, c, limit);
            && p.data == Take(Below(table, c), Cap(limit))
            && (p.hasMore <==> |Below(table, c)| > Cap(limit))
            && (p.hasMore <==> p.nextCursor.Some?)
            && (p.nextCursor.Some? ==>
                  p.data != [] && p.nextCursor.value == Cursor(p.data[|p.data| - 1].t, p.data[|p.data| - 1].id))
  {
  }

  /** Out-of-range limits are brought into 1..100; a page is as full as its limit and the table allow. */
  lemma PageSize(table: Table, c: Cursor, limit: int)
    ensures var n := |FetchPage(table, c, limit).data|;
            var rest := |Below(table, c)|;
            && n <= rest && n <= 100
            && (rest > 0 ==> n > 0)
            && (1 <= limit <= 100 ==> n == if rest < limit then rest else limit)
            && (limit < 1 ==> n <= 1)
            && (limit > 100 ==> n == if rest < 100 then rest else 100)
  {
    PageIsPrefix(table, c, limit);
  }

  /** What is below a page's last row is what the page left out. */
  lemma RestOfList(table: Table, c: Cursor, n: nat)
    requires UniqueIds(table) && 0 < n < |Below(table, c)|
    ensures Below(table, KeyOf(Below(table, c)[n - 1])) == Below(table, c)[n..]
  {
    var all := Below(table, c);
    var last := KeyOf(all[n - 1]);
    BelowDescends(table, c);
    BelowDescends(table, last);
    forall x ensures x in Below(table, last) <==> x in all[n..] {
      BelowMembers(table, last, x);
      BelowMembers(table, c, x);
      assert all[n - 1] in all;
      BelowMembers(table, c, all[n - 1]);
    }
    OrderIsUnique(Below(table, last), all[n..]);
  }

  /// ## A walk

  /** What one request of a walk meets: the table at that moment, and the limit asked for. */
  datatype Visit = Visit(table: Table, limit: int)

  /** The pages of a walk that follows `nextCursor` until it is null or the visits run out. */
  function Walk(c: Cursor, visits: seq<Visit>): (r: seq<Page>)
    decreases |visits|
  {
    if visits == [] then []
    else
      var p := FetchPage(visits[0].table, c, visits[0].limit);
      match p.nextCursor
      case None => [p]
      case Some(next) => [p] + Walk(next, visits[1..])
  }

  function Rows(pages: seq<Page>): (r: Table) {
    if pages == [] then [] else pages[0].data + Rows(pages[1..])
  }

  predicate Finished(pages: seq<Page>) {
    pages != [] && pages[|pages| - 1].nextCursor == None
  }

  predicate AllOf(visits: seq<Visit>, table: Table) {
    forall v <- visits :: v.table == table
  }

  /** The row is older than the cursor says, or as old with a smaller id. */
  predicate IsOlder(r: Row, c: Cursor) {
    r.t < c.t || (r.t == c.t && r.id < c.i)
  }

  /** Newest first, and by falling ids among rows of one instant. */
  ghost predicate NewestFirst(rows: Table) {
    forall i: nat, j: nat :: i < j < |rows| ==>
      rows[i].t > rows[j].t || (rows[i].t == rows[j].t && rows[i].id > rows[j].id)
  }

  lemma DescendingIsNewestFirst(rows: Table)
    requires Descending(rows)
    ensures NewestFirst(rows)
  {
    forall i: nat, j: nat | i < j < |rows|
      ensures rows[i].t > rows[j].t || (rows[i].t == rows[j].t && rows[i].id > rows[j].id)
    {
      assert After(KeyOf(rows[j]), KeyOf(rows[i]));
    }
  }

  lemma BelowIsOlder(table: Table, c: Cursor)
    requires UniqueIds(table)
    ensures NewestFirst(Below(table, c))
    ensures forall r :: r in Below(table, c) <==> r in table && IsOlder(r, c)
  {
    BelowDescends(table, c);
    DescendingIsNewestFirst(Below(table, c));
    forall r ensures r in Below(table, c) <==> r in table && IsOlder(r, c) {
      BelowMembers(table, c, r);
    }
  }

  /** A page and what lies below its last row make up what lies below its cursor. */
  lemma StaticPage(table: Table, c: Cursor, limit: int)
    requires UniqueIds(table)
    ensures var p := FetchPage(table, c, limit);
            match p.nextCursor
            case None => p.data == Below(table, c)
            case Some(next) =>
              p.data != [] && p.data + Below(table, next) == Below(table, c) && Below(table, next) != []
  {
    PageIsPrefix(table, c, limit);
    var n, all := Cap(limit), Below(table, c);
    if |all| > n {
      RestOfList(table, c, n);
      assert all == all[..n] + all[n..];
    }
  }

  lemma {:induction false} StaticWalk(c: Cursor, visits: seq<Visit>, table: Table)
    requires UniqueIds(table) && AllOf(visits, table)
    requires |visits| > 0 && |visits| >= |Below(table, c)|
    ensures IsWholeWalk(Walk(c, visits), Below(table, c))
    decreases |visits|
  {
    assert visits[0] in visits;
    StaticPage(table, c, visits[0].limit);
    var p := FetchPage(table, c, visits[0].limit);
    if p.nextCursor.Some? {
      var next := p.nextCursor.value;
      assert |Below(table, next)| < |Below(table, c)|;
      StaticWalk(next, visits[1..], table);
    }
  }

  predicate IsWholeWalk(pages: seq<Page>, all: Table) {
    Finished(pages) && Rows(pages) == all && |pages| <= (if all == [] then 1 else |all|)
  }

  /** Every page but the last promises more. */
  lemma {:induction false} MoreUntilTheEnd(c: Cursor, visits: seq<Visit>, i: nat)
    requires i < |Walk(c, visits)| - 1
    ensures Walk(c, visits)[i].hasMore
    decreases |visits|
  {
    var p := FetchPage(visits[0].table, c, visits[0].limit);
    PageIsPrefix(visits[0].table, c, visits[0].limit);
    if i > 0 {
      MoreUntilTheEnd(p.nextCursor.value, visits[1..], i - 1);
    }
  }

  lemma {:induction false} MoreIsCursor(c: Cursor, visits: seq<Visit>, i: nat)
    requires i < |Walk(c, visits)|
    ensures Walk(c, visits)[i].hasMore <==> Walk(c, visits)[i].nextCursor.Some?
    decreases |visits|
  {
    var p := FetchPage(visits[0].table, c, visits[0].limit);
    if i > 0 { MoreIsCursor(p.nextCursor.value, visits[1..], i - 1); }
  }

  /**
   * On a table that stands still the walk ends, for every choice of limits, after at
   * most one page a row; its pages are the whole list below the cursor, in order, and
   * the last page is the only one that promises no more.
   */
  lemma WalkIsExact(c: Cursor, visits: seq<Visit>, table: Table)
    requires UniqueIds(table) && AllOf(visits, table)
    requires |visits| > 0 && |visits| >= |Below(table, c)|
    ensures var pages := Walk(c, visits);
            && Finished(pages)
            && Rows(pages) == Below(table, c)
            && |pages| <= (if Below(table, c) == [] then 1 else |Below(table, c)|)
            && NewestFirst(Rows(pages))
            && (forall r :: r in Rows(pages) <==> r in table && IsOlder(r, c))
            && forall i: nat :: i < |pages| ==> (pages[i].hasMore <==> i < |pages| - 1)
  {
    StaticWalk(c, visits, table);
    var pages := Walk(c, visits);
    BelowIsOlder(table, c);
    forall i: nat | i < |pages| ensures pages[i].hasMore <==> i < |pages| - 1 {
      if i < |pages| - 1 { MoreUntilTheEnd(c, visits, i); } else { MoreIsCursor(c, visits, i); }
    }
  }

  lemma OneMore(m: int, n: int)
    ensures m * n == (m - 1) * n + n && (m + 1) * n == m * n + n
  {
  }

  predicate SameLimit(visits: seq<Visit>, limit: int) {
    forall v <- visits :: v.limit == limit
  }

  /** With one limit throughout, the pages are as few as they can be. */
  lemma {:induction false} PageCount(c: Cursor, visits: seq<Visit>, table: Table, limit: int)
    requires UniqueIds(table) && AllOf(visits, table) && SameLimit(visits, limit)
    requires |visits| > 0 && |visits| >= |Below(table, c)| && Below(table, c) != []
    ensures (|Walk(c, visits)| - 1) * Cap(limit) < |Below(table, c)| <= |Walk(c, visits)| * Cap(limit)
    decreases |visits|
  {
    assert visits[0] in visits;
    PageIsPrefix(table, c, limit);
    var p := FetchPage(table, c, limit);
    if p.nextCursor.Some? {
      RestOfList(table, c, Cap(limit));
      PageCount(p.nextCursor.value, visits[1..], table, limit);
      var m := |Walk(p.nextCursor.value, visits[1..])|;
      assert |Walk(c, visits)| == m + 1;
      OneMore(m, Cap(limit));
    } else {
      assert |Walk(c, visits)| == 1;
    }
  }

  /// ## A walk over a table that changes

  predicate AllUnique(visits: seq<Visit>) {
    forall v <- visits :: UniqueIds(v.table)
  }

  /** A row keeps its sort value, and an id is never given to another row. */
  predicate StableKeys(visits: seq<Visit>) {
    forall v <- visits, w <- visits :: forall r <- v.table, s <- w.table :: r.id == s.id ==> r.t == s.t
  }

  /** A row with key `k` is there at each request that the walk makes. */
  predicate PresentThroughout(c: Cursor, visits: seq<Visit>, k: Cursor) {
    forall i: nat :: i < |visits| && i < |Walk(c, visits)| ==> HasKey(visits[i].table, k)
  }

  predicate HasKey(rows: Table, k: Cursor) {
    exists r <- rows :: KeyOf(r) == k
  }

  lemma PageMembers(table: Table, c: Cursor, limit: int, r: Row)
    requires r in FetchPage(table, c, limit).data
    ensures r in table && After(KeyOf(r), c)
  {
    PageIsPrefix(table, c, limit);
    assert r in Below(table, c);
    BelowMembers(table, c, r);
  }

  /** A row below the cursor is on the page, or below the page's last row. */
  lemma PageOrLater(table: Table, c: Cursor, limit: int, r: Row)
    requires UniqueIds(table) && r in table && After(KeyOf(r), c)
    ensures var p := FetchPage(table, c, limit);
            r in p.data || (p.nextCursor.Some? && After(KeyOf(r), p.nextCursor.value))
  {
    PageIsPrefix(table, c, limit);
    BelowMembers(table, c, r);
    BelowDescends(table, c);
    var all := Below(table, c);
    var i: nat :| i < |all| && all[i] == r;
    var n := Cap(limit);
    if |all| > n {
      if i < n { assert all[..n][i] == r; } else { assert After(KeyOf(all[i]), KeyOf(all[n - 1])); }
    }
  }

  lemma {:induction false} WalkMembers(c: Cursor, visits: seq<Visit>, r: Row)
    requires AllUnique(visits) && r in Rows(Walk(c, visits))
    ensures After(KeyOf(r), c) && exists v <- visits :: r in v.table
    decreases |visits|
  {
    var v := visits[0];
    assert v in visits;
    var p := FetchPage(v.table, c, v.limit);
    assert Walk(c, visits)[0] == p;
    if r in p.data {
      PageMembers(v.table, c, v.limit, r);
    } else {
      var next := p.nextCursor.value;
      assert Walk(c, visits)[1..] == Walk(next, visits[1..]);
      WalkMembers(next, visits[1..], r);
      CursorMovesOn(v.table, c, v.limit);
    }
  }

  lemma CursorMovesOn(table: Table, c: Cursor, limit: int)
    ensures var p := FetchPage(table, c, limit);
            p.nextCursor.Some? ==> After(p.nextCursor.value, c)
  {
    var p := FetchPage(table, c, limit);
    PageIsPrefix(table, c, limit);
    if p.nextCursor.Some? { PageMembers(table, c, limit, p.data[|p.data| - 1]); }
  }

  lemma DescendingConcat(a: Table, b: Table)
    requires Descending(a) && Descending(b) && a != []
    requires forall r <- b :: After(KeyOf(r), KeyOf(a[|a| - 1]))
    ensures Descending(a + b)
  {
    forall i: nat, j: nat | i < j < |a + b| ensures After(KeyOf((a + b)[j]), KeyOf((a + b)[i])) {
      if i < |a| <= j {
        assert b[j - |a|] in b;
      }
    }
  }

  /** Rows come out newest first, whatever happens to the table between pages. */
  lemma WalkIsNewestFirst(c: Cursor, visits: seq<Visit>)
    requires AllUnique(visits)
    ensures NewestFirst(Rows(Walk(c, visits)))
    ensures forall r <- Rows(Walk(c, visits)) :: IsOlder(r, c)
  {
    WalkDescends(c, visits);
    DescendingIsNewestFirst(Rows(Walk(c, visits)));
    forall r | r in Rows(Walk(c, visits)) ensures IsOlder(r, c) {
      WalkMembers(c, visits, r);
    }
  }

  lemma {:induction false} WalkDescends(c: Cursor, visits: seq<Visit>)
    requires AllUnique(visits)
    ensures Descending(Rows(Walk(c, visits)))
    decreases |visits|
  {
    if visits != [] {
      var v := visits[0];
      assert v in visits;
      var p := FetchPage(v.table, c, v.limit);
      PageIsPrefix(v.table, c, v.limit);
      BelowDescends(v.table, c);
      if p.nextCursor.Some? {
        var next := p.nextCursor.value;
        assert Walk(c, visits)[1..] == Walk(next, visits[1..]);
        WalkDescends(next, visits[1..]);
        forall r | r in Rows(Walk(next, visits[1..])) ensures After(KeyOf(r), next) {
          WalkMembers(next, visits[1..], r);
        }
        DescendingConcat(p.data, Rows(Walk(next, visits[1..])));
      } else {
        assert Walk(c, visits)[1..] == [];
        assert Rows(Walk(c, visits)) == p.data;
      }
    }
  }

  /** No row is returned twice. */
  lemma NoRowTwice(c: Cursor, visits: seq<Visit>, i: nat, j: nat)
    requires AllUnique(visits) && StableKeys(visits)
    requires i < j < |Rows(Walk(c, visits))|
    ensures Rows(Walk(c, visits))[i].id != Rows(Walk(c, visits))[j].id
  {
    var rows := Rows(Walk(c, visits));
    WalkDescends(c, visits);
    WalkMembers(c, visits, rows[i]);
    WalkMembers(c, visits, rows[j]);
    assert After(KeyOf(rows[j]), KeyOf(rows[i]));
  }

  lemma {:induction false} WalkFinds(c: Cursor, visits: seq<Visit>, k: Cursor)
    requires AllUnique(visits) && Finished(Walk(c, visits)) && PresentThroughout(c, visits, k) && After(k, c)
    ensures HasKey(Rows(Walk(c, visits)), k)
    decreases |visits|
  {
    var v := visits[0];
    assert v in visits;
    var p := FetchPage(v.table, c, v.limit);
    assert HasKey(v.table, k);
    var r :| r in v.table && KeyOf(r) == k;
    PageOrLater(v.table, c, v.limit, r);
    assert Walk(c, visits)[0] == p;
    if r in p.data {
      assert r in Rows(Walk(c, visits));
    } else {
      var next := p.nextCursor.value;
      var rest := Walk(next, visits[1..]);
      assert Walk(c, visits) == [p] + rest && Walk(c, visits)[1..] == rest;
      assert rest != [];
      assert Walk(c, visits)[|Walk(c, visits)| - 1] == rest[|rest| - 1];
      forall i: nat | i < |visits[1..]| && i < |rest| ensures HasKey(visits[1..][i].table, k) {
        assert HasKey(visits[i + 1].table, k);
      }
      WalkFinds(next, visits[1..], k);
      var s :| s in Rows(rest) && KeyOf(s) == k;
      assert s in Rows(Walk(c, visits));
    }
  }

  /**
   * Once a walk over a changing table has met a null cursor, every row that was there
   * at each of its requests and lies below the start has come out exactly once. Rows
   * that came or went meanwhile, the cursor's own row among them, make no difference.
   */
  lemma SurvivorsComeOutOnce(c: Cursor, visits: seq<Visit>, k: Cursor)
    requires AllUnique(visits) && Finished(Walk(c, visits)) && PresentThroughout(c, visits, k) && After(k, c)
    ensures exists i: nat ::
              && i < |Rows(Walk(c, visits))| && KeyOf(Rows(Walk(c, visits))[i]) == k
              && forall j: nat :: j < |Rows(Walk(c, visits))| && KeyOf(Rows(Walk(c, visits))[j]) == k ==> j == i
  {
    var rows := Rows(Walk(c, visits));
    WalkFinds(c, visits, k);
    WalkDescends(c, visits);
    var r :| r in rows && KeyOf(r) == k;
    var i: nat :| i < |rows| && rows[i] == r;
    forall j: nat | j < |rows| && KeyOf(rows[j]) == k ensures j == i {
      KeysDiffer(rows, i, j);
    }
  }
}
