/**
 Keyset pagination: fetch one row too many in key order after the cursor, keep `limit`, and hand out
 the last kept key as the next cursor. A row is known by its key.
 */
module Paging {
  import opened Common

  // ------------------------------------------------------------------ orders

  ghost predicate TotalOrder<K(!new)>(less: (K, K) -> bool) {
    && (forall x :: !less(x, x))
    && (forall x, y, z :: less(x, y) && less(y, z) ==> less(x, z))
    && (forall x, y :: x == y || less(x, y) || less(y, x))
  }

  predicate Ascending<K>(less: (K, K) -> bool, s: seq<K>) {
    forall i, k :: 0 <= i < k < |s| ==> less(s[i], s[k])
  }

  predicate Distinct<K(==)>(s: seq<K>) {
    forall i, k :: 0 <= i < k < |s| ==> s[i] != s[k]
  }

  /** `(time, id)` ascending, as most lists order their rows. */
  function TimeThenId<T>(less: (T, T) -> bool): ((int, T), (int, T)) -> bool {
    (x: (int, T), y: (int, T)) => x.0 < y.0 || (x.0 == y.0 && less(x.1, y.1))
  }

  /** Holding descending, then address ascending: the holder ledger's order. */
  function HoldingThenAddress<T>(less: (T, T) -> bool): ((int, T), (int, T)) -> bool {
    (x: (int, T), y: (int, T)) => y.0 < x.0 || (x.0 == y.0 && less(x.1, y.1))
  }

  lemma KeysetOrdersAreTotal<T(!new)>(less: (T, T) -> bool)
    requires TotalOrder(less)
    ensures TotalOrder(TimeThenId(less)) && TotalOrder(HoldingThenAddress(less))
    ensures forall s, t, x, y :: s < t ==> TimeThenId(less)((s, x), (t, y)) && HoldingThenAddress(less)((t, x), (s, y))
    ensures forall t, x, y :: less(x, y) ==>
              TimeThenId(less)((t, x), (t, y)) && HoldingThenAddress(less)((t, x), (t, y))
  {
    var a, d := TimeThenId(less), HoldingThenAddress(less);
    assert forall x, y: (int, T) :: a(x, y) <==> x.0 < y.0 || (x.0 == y.0 && less(x.1, y.1));
    assert forall x, y: (int, T) :: d(x, y) <==> y.0 < x.0 || (x.0 == y.0 && less(x.1, y.1));
    assert forall x, y: (int, T) :: x == y <==> x.0 == y.0 && x.1 == y.1;
  }

  // ------------------------------------------------------------------ the query

  function Insert<K>(less: (K, K) -> bool, x: K, s: seq<K>): seq<K> {
    if s == [] || less(x, s[0]) then [x] + s else [s[0]] + Insert(less, x, s[1..])
  }

  /** ORDER BY. */
  function Sort<K>(less: (K, K) -> bool, s: seq<K>): seq<K> {
    if s == [] then [] else Insert(less, s[|s| - 1], Sort(less, s[..|s| - 1]))
  }

  /** WHERE key > cursor. */
  function Beyond<K>(less: (K, K) -> bool, table: seq<K>, cursor: Option<K>): seq<K> {
    if table == [] then []
    else
      var x := table[|table| - 1];
      Beyond(less, table[..|table| - 1], cursor) + if cursor.None? || less(cursor.value, x) then [x] else []
  }

  /** The whole statement, with its LIMIT. */
  function Fetch<K>(less: (K, K) -> bool, table: seq<K>, cursor: Option<K>, n: nat): seq<K> {
    var rows := Sort(less, Beyond(less, table, cursor));
    if |rows| <= n then rows else rows[..n]
  }

  // ------------------------------------------------------------------ the page

  datatype Page<K> = Page(data: seq<K>, nextCursor: Option<K>, hasNextPage: bool)

  function PageOf<K>(rows: seq<K>, limit: nat): Page<K>
    requires limit > 0
  {
    if |rows| > limit then Page(rows[..limit], Some(rows[limit - 1]), true) else Page(rows, None, false)
  }

  /** Truncate the over-fetch in place and take the cursor of the last kept row. */
  method FromOverfetch<K>(fetched: seq<K>, limit: nat) returns (page: Page<K>)
    requires limit > 0
    ensures page == PageOf(fetched, limit)
  {
    var rows := fetched;
    var hasNextPage := |rows| > limit;
    if hasNextPage {
      rows := rows[..limit];
    }
    var nextCursor := if hasNextPage then Some(rows[|rows| - 1]) else None;
    page := Page(rows, nextCursor, hasNextPage);
  }

  function PageAfter<K>(less: (K, K) -> bool, table: seq<K>, cursor: Option<K>, limit: nat): Page<K>
    requires limit > 0
  {
    PageOf(Fetch(less, table, cursor, limit + 1), limit)
  }

  const DEFAULT_LIMIT: int := 20
  const MAX_LIMIT: int := 100

  /** A requested page size, defaulted and clamped: always a legal limit, and itself when it is one. */
  function ClampLimit(requested: Option<int>): (limit: nat)
    ensures requested.None? ==> limit == 20
    ensures requested.Some? && requested.value < 1 ==> limit == 1
    ensures requested.Some? && 1 <= requested.value <= 100 ==> limit == requested.value
    ensures requested.Some? && requested.value > 100 ==> limit == 100
  {
    var n := if requested.None? then DEFAULT_LIMIT else requested.value;
    if n < 1 then 1 else if n > MAX_LIMIT then MAX_LIMIT else n
  }

  // ------------------------------------------------------------------ what a page holds

  lemma {:induction false} InsertPlaces<K(!new)>(less: (K, K) -> bool, x: K, s: seq<K>)
    requires TotalOrder(less) && Ascending(less, s) && x !in s
    ensures Ascending(less, Insert(less, x, s)) && |Insert(less, x, s)| == |s| + 1
    ensures forall y :: y in Insert(less, x, s) <==> y == x || y in s
  {
    if s != [] && !less(x, s[0]) {
      assert s == [s[0]] + s[1..];
      InsertPlaces(less, x, s[1..]);
      var rest := Insert(less, x, s[1..]);
      forall k | 0 <= k < |rest| ensures less(s[0], rest[k]) {
        assert rest[k] in rest;
        if rest[k] != x { var i :| 0 <= i < |s[1..]| && s[1..][i] == rest[k]; assert less(s[0], s[i + 1]); }
        else { assert s[0] in s; }
      }
    }
  }

  lemma {:induction false} SortSorts<K(!new)>(less: (K, K) -> bool, s: seq<K>)
    requires TotalOrder(less) && Distinct(s)
    ensures Ascending(less, Sort(less, s)) && |Sort(less, s)| == |s|
    ensures forall y :: y in Sort(less, s) <==> y in s
  {
    if s != [] {
      var n := |s| - 1;
      assert s == s[..n] + [s[n]];
      SortSorts(less, s[..n]);
      InsertPlaces(less, s[n], Sort(less, s[..n]));
    }
  }

  /** An order in which some keys may tie. */
  ghost predicate WeakOrder<K(!new)>(less: (K, K) -> bool) {
    && (forall x, y :: less(x, y) ==> !less(y, x))
    && (forall x, y, z :: less(x, z) ==> less(x, y) || less(y, z))
  }

  predicate NeverBackwards<K>(less: (K, K) -> bool, s: seq<K>) {
    forall i, k :: 0 <= i < k < |s| ==> !less(s[k], s[i])
  }

  lemma {:induction false} InsertKeepsRows<K>(less: (K, K) -> bool, x: K, s: seq<K>)
    ensures multiset(Insert(less, x, s)) == multiset(s) + multiset{x}
  {
    if s == [] || less(x, s[0]) {
      assert Insert(less, x, s) == [x] + s;
    } else {
      assert s == [s[0]] + s[1..];
      InsertKeepsRows(less, x, s[1..]);
    }
  }

  lemma {:induction false} InsertInOrder<K(!new)>(less: (K, K) -> bool, x: K, s: seq<K>)
    requires WeakOrder(less) && NeverBackwards(less, s)
    ensures NeverBackwards(less, Insert(less, x, s))
  {
    if s != [] && !less(x, s[0]) {
      InsertInOrder(less, x, s[1..]);
      InsertKeepsRows(less, x, s[1..]);
      var rest := Insert(less, x, s[1..]);
      forall k | 0 <= k < |rest| ensures !less(rest[k], s[0]) {
        assert rest[k] in multiset(rest);
        if rest[k] != x { var i :| 0 <= i < |s| - 1 && s[1..][i] == rest[k]; assert s[i + 1] == rest[k]; }
      }
      hide Insert;
      assert Insert(less, x, s) == [s[0]] + rest by { InsertBehind(less, x, s); }
    }
  }

  lemma InsertBehind<K>(less: (K, K) -> bool, x: K, s: seq<K>)
    requires s != [] && !less(x, s[0])
    ensures Insert(less, x, s) == [s[0]] + Insert(less, x, s[1..])
  {
  }

  /** With ties, sorting gives the same rows in an order that never goes back. */
  lemma {:induction false} SortInOrder<K(!new)>(less: (K, K) -> bool, s: seq<K>)
    requires WeakOrder(less)
    ensures NeverBackwards(less, Sort(less, s)) && multiset(Sort(less, s)) == multiset(s)
  {
    if s != [] {
      var n := |s| - 1;
      assert s == s[..n] + [s[n]];
      SortInOrder(less, s[..n]);
      InsertInOrder(less, s[n], Sort(less, s[..n]));
      InsertKeepsRows(less, s[n], Sort(less, s[..n]));
    }
  }

  lemma {:induction false} DistinctOnce<K>(s: seq<K>, x: K)
    requires Distinct(s)
    ensures multiset(s)[x] == if x in s then 1 else 0
  {
    if s != [] {
      var n := |s| - 1;
      assert s == s[..n] + [s[n]];
      assert s[n] !in s[..n];
      DistinctOnce(s[..n], x);
    }
  }

  /** The same rows in another order are still distinct. */
  lemma SameRowsDistinct<K>(s: seq<K>, t: seq<K>)
    requires Distinct(s) && multiset(t) == multiset(s)
    ensures Distinct(t)
  {
    forall i, k | 0 <= i < k < |t| ensures t[i] != t[k] {
      DistinctOnce(s, t[i]);
      assert t == t[..k] + t[k..] && t[i] in t[..k];
    }
  }

  lemma {:induction false} BeyondSelects<K(!new)>(less: (K, K) -> bool, table: seq<K>, cursor: Option<K>)
    requires Distinct(table)
    ensures Distinct(Beyond(less, table, cursor))
    ensures forall y :: y in Beyond(less, table, cursor) <==> y in table && (cursor.None? || less(cursor.value, y))
  {
    if table != [] {
      var n := |table| - 1;
      assert table == table[..n] + [table[n]];
      BeyondSelects(less, table[..n], cursor);
      forall i | 0 <= i < n ensures table[i] != table[n] {}
      assert table[n] !in table[..n];
    }
  }

  /** The rows a page is cut from: all the eligible ones, in order. */
  lemma Eligible<K(!new)>(less: (K, K) -> bool, table: seq<K>, cursor: Option<K>)
    requires TotalOrder(less) && Distinct(table)
    ensures var rows := Sort(less, Beyond(less, table, cursor));
            && Ascending(less, rows)
            && forall y :: y in rows <==> y in table && (cursor.None? || less(cursor.value, y))
  {
    BeyondSelects(less, table, cursor);
    SortSorts(less, Beyond(less, table, cursor));
  }

  /** A page is ascending, lies in the table beyond the cursor, and skips nothing before its next cursor. */
  lemma PageIsNextStretch<K(!new)>(less: (K, K) -> bool, table: seq<K>, cursor: Option<K>, limit: nat)
    requires TotalOrder(less) && Distinct(table) && limit > 0
    ensures var page := PageAfter(less, table, cursor, limit);
            && Ascending(less, page.data)
            && (forall y <- page.data :: y in table && (cursor.None? || less(cursor.value, y)))
            && (page.hasNextPage <==> page.nextCursor.Some?)
            && (page.hasNextPage ==> |page.data| == limit && page.nextCursor.value == page.data[limit - 1])
            && (forall y <- table :: (cursor.None? || less(cursor.value, y)) ==>
                  y in page.data || (page.hasNextPage && less(page.nextCursor.value, y)))
  {
    Eligible(less, table, cursor);
    var rows := Sort(less, Beyond(less, table, cursor));
    var page := PageAfter(less, table, cursor, limit);
    assert page.data <= rows;
    forall y | y in page.data ensures y in rows {
      var i :| 0 <= i < |page.data| && page.data[i] == y;
      assert rows[i] == y;
    }
    forall y | y in rows && y !in page.data
      ensures page.hasNextPage && less(page.nextCursor.value, y)
    {
      var i :| 0 <= i < |rows| && rows[i] == y;
      assert forall x :: 0 <= x < |page.data| ==> rows[x] == page.data[x] && page.data[x] in page.data;
      assert page.data[limit - 1] == rows[limit - 1];
    }
  }

  // ------------------------------------------------------------------ following the cursors

  /** The rows a client collects; `tables` is what each of its requests finds, one snapshot a request. */
  function Collected<K>(less: (K, K) -> bool, tables: seq<seq<K>>, cursor: Option<K>, limit: nat): seq<K>
    requires limit > 0
  {
    if tables == [] then []
    else
      var page := PageAfter(less, tables[0], cursor, limit);
      page.data + if page.hasNextPage then Collected(less, tables[1..], page.nextCursor, limit) else []
  }

  /** The client reached a page without a next cursor. */
  predicate Finished<K>(less: (K, K) -> bool, tables: seq<seq<K>>, cursor: Option<K>, limit: nat)
    requires limit > 0
  {
    tables != [] &&
    var page := PageAfter(less, tables[0], cursor, limit);
    !page.hasNextPage || Finished(less, tables[1..], page.nextCursor, limit)
  }

  function PagesRead<K>(less: (K, K) -> bool, tables: seq<seq<K>>, cursor: Option<K>, limit: nat): nat
    requires limit > 0
  {
    if tables == [] then 0
    else
      var page := PageAfter(less, tables[0], cursor, limit);
      1 + if page.hasNextPage then PagesRead(less, tables[1..], page.nextCursor, limit) else 0
  }

  /**
   Whatever happens to the table between requests, the client sees strictly ascending keys, so no row
   twice, and only rows some request found.
   */
  lemma {:induction false} NoRowTwice<K(!new)>(less: (K, K) -> bool, tables: seq<seq<K>>, cursor: Option<K>, limit: nat)
    requires TotalOrder(less) && limit > 0 && forall t <- tables :: Distinct(t)
    ensures var all := Collected(less, tables, cursor, limit);
            && Ascending(less, all)
            && (cursor.Some? ==> forall y <- all :: less(cursor.value, y))
            && forall y <- all :: exists t :: t in tables && y in t
  {
    if tables != [] {
      assert tables[0] in tables;
      PageIsNextStretch(less, tables[0], cursor, limit);
      var page := PageAfter(less, tables[0], cursor, limit);
      if page.hasNextPage {
        var last := page.data[limit - 1];
        forall t | t in tables[1..] ensures t in tables {}
        NoRowTwice(less, tables[1..], page.nextCursor, limit);
        var rest := Collected(less, tables[1..], page.nextCursor, limit);
        forall y | y in page.data ensures y == last || less(y, last) {
          var i :| 0 <= i < limit && page.data[i] == y;
        }
        AppendAscends(less, page.data, rest, last);
      }
    }
  }

  lemma AppendAscends<K(!new)>(less: (K, K) -> bool, a: seq<K>, b: seq<K>, last: K)
    requires TotalOrder(less) && Ascending(less, a) && Ascending(less, b)
    requires (forall y <- a :: y == last || less(y, last)) && forall y <- b :: less(last, y)
    ensures Ascending(less, a + b)
  {
    forall i, k | 0 <= i < k < |a + b| ensures less((a + b)[i], (a + b)[k]) {
      if i < |a| <= k { assert a[i] in a && b[k - |a|] in b; }
    }
  }

  /** A client that reaches the end has every row that was there at each of its requests. */
  lemma {:induction false} NoRowMissed<K(!new)>(less: (K, K) -> bool, tables: seq<seq<K>>, cursor: Option<K>,
                                                limit: nat, y: K)
    requires TotalOrder(less) && limit > 0 && forall t <- tables :: Distinct(t)
    requires Finished(less, tables, cursor, limit)
    requires (forall t <- tables :: y in t) && (cursor.None? || less(cursor.value, y))
    ensures y in Collected(less, tables, cursor, limit)
  {
    assert tables[0] in tables;
    PageIsNextStretch(less, tables[0], cursor, limit);
    var page := PageAfter(less, tables[0], cursor, limit);
    if page.hasNextPage && y !in page.data {
      forall t | t in tables[1..] ensures t in tables {}
      NoRowMissed(less, tables[1..], page.nextCursor, limit, y);
    }
  }

  lemma HasFirst<K>(s: seq<K>)
    requires s != []
    ensures s[0] in s
  {
  }

  /** Two ascending lists of the same rows are the same list. */
  lemma {:induction false} OrderIsUnique<K(!new)>(less: (K, K) -> bool, a: seq<K>, b: seq<K>)
    requires TotalOrder(less) && Ascending(less, a) && Ascending(less, b)
    requires forall y :: y in a <==> y in b
    ensures a == b
  {
    if a == [] {
      if b != [] { HasFirst(b); }
    } else {
      assert a[0] in a && a[0] in b;
      assert b[0] in b && b[0] in a;
      var i :| 0 <= i < |b| && b[i] == a[0];
      var k :| 0 <= k < |a| && a[k] == b[0];
      assert i == 0 && k == 0;
      forall y ensures y in a[1..] <==> y in b[1..] {
        TailMembers(less, a, y);
        TailMembers(less, b, y);
      }
      OrderIsUnique(less, a[1..], b[1..]);
    }
  }

  lemma TailMembers<K(!new)>(less: (K, K) -> bool, a: seq<K>, y: K)
    requires TotalOrder(less) && Ascending(less, a) && a != []
    ensures y in a[1..] <==> y in a && y != a[0]
  {
    if y in a && y != a[0] {
      var i :| 0 <= i < |a| && a[i] == y;
      assert a[1..][i - 1] == y;
    }
  }

  /** What lies beyond a row is what follows it in order. */
  lemma BeyondIsSuffix<K(!new)>(less: (K, K) -> bool, table: seq<K>, i: nat)
    requires TotalOrder(less) && Distinct(table) && i < |Sort(less, table)|
    ensures Sort(less, Beyond(less, table, Some(Sort(less, table)[i]))) == Sort(less, table)[i + 1..]
  {
    var all := Sort(less, table);
    SortSorts(less, table);
    Eligible(less, table, Some(all[i]));
    var rest := Sort(less, Beyond(less, table, Some(all[i])));
    forall y ensures y in rest <==> y in all[i + 1..] {
      if y in rest {
        assert y in all;
        var k :| 0 <= k < |all| && all[k] == y;
        assert all[i + 1..][k - i - 1] == y;
      }
      if y in all[i + 1..] {
        var k :| 0 <= k < |all[i + 1..]| && all[i + 1..][k] == y;
        assert all[i + 1 + k] == y && y in all;
      }
    }
    OrderIsUnique(less, rest, all[i + 1..]);
  }

  /** ceil(rows / limit), but one page for an empty table. */
  function Pages(rows: nat, limit: nat): (p: nat)
    requires limit > 0
    ensures rows == 0 ==> p == 1
    ensures rows > 0 ==> (p - 1) * limit < rows <= p * limit
  {
    if rows <= limit then 1 else 1 + Pages(rows - limit, limit)
  }

  lemma PageFromRows<K(!new)>(less: (K, K) -> bool, table: seq<K>, cursor: Option<K>, limit: nat)
    requires limit > 0
    ensures var rows := Sort(less, Beyond(less, table, cursor));
            PageAfter(less, table, cursor, limit) ==
            if |rows| > limit then Page(rows[..limit], Some(rows[limit - 1]), true) else Page(rows, None, false)
  {
    hide Sort, Beyond;
    var rows := Sort(less, Beyond(less, table, cursor));
    if |rows| > limit + 1 { assert rows[..limit + 1][..limit] == rows[..limit]; }
  }

  lemma {:induction false} FixedTableFrom<K(!new)>(less: (K, K) -> bool, table: seq<K>, tables: seq<seq<K>>,
                                                   cursor: Option<K>, limit: nat)
    requires TotalOrder(less) && Distinct(table) && limit > 0 && forall t <- tables :: t == table
    requires cursor.Some? ==> cursor.value in Sort(less, table)
    requires |tables| >= Pages(|Sort(less, Beyond(less, table, cursor))|, limit)
    ensures var rows := Sort(less, Beyond(less, table, cursor));
            && Finished(less, tables, cursor, limit)
            && Collected(less, tables, cursor, limit) == rows
            && PagesRead(less, tables, cursor, limit) == Pages(|rows|, limit)
  {
    hide Sort, Beyond, PageAfter, Ascending;
    var rows := Sort(less, Beyond(less, table, cursor));
    assert tables[0] in tables;
    PageFromRows(less, table, cursor, limit);
    if |rows| > limit {
      var next := rows[limit - 1];
      Eligible(less, table, cursor);
      SortSorts(less, table);
      assert next in rows;
      NextRows(less, table, cursor, limit);
      forall t | t in tables[1..] ensures t == table { assert t in tables; }
      FixedTableFrom(less, table, tables[1..], Some(next), limit);
      assert rows == rows[..limit] + rows[limit..];
    } else {
      assert rows + [] == rows;
    }
  }

  lemma NextRows<K(!new)>(less: (K, K) -> bool, table: seq<K>, cursor: Option<K>, limit: nat)
    requires TotalOrder(less) && Distinct(table) && limit > 0
    requires cursor.Some? ==> cursor.value in Sort(less, table)
    requires |Sort(less, Beyond(less, table, cursor))| > limit
    ensures var rows := Sort(less, Beyond(less, table, cursor));
            Sort(less, Beyond(less, table, Some(rows[limit - 1]))) == rows[limit..]
  {
    var all := Sort(less, table);
    var rows := Sort(less, Beyond(less, table, cursor));
    if cursor.Some? {
      var i :| 0 <= i < |all| && all[i] == cursor.value;
      BeyondIsSuffix(less, table, i);
      BeyondIsSuffix(less, table, i + limit);
      assert all[i + 1..][limit..] == all[i + 1 + limit..];
    } else {
      EverythingIsBeyondNothing(less, table);
      BeyondIsSuffix(less, table, limit - 1);
    }
  }

  lemma {:induction false} EverythingIsBeyondNothing<K>(less: (K, K) -> bool, table: seq<K>)
    ensures Beyond(less, table, None) == table
  {
    if table != [] { EverythingIsBeyondNothing(less, table[..|table| - 1]); }
  }

  /**
   On a fixed table of n rows, following the cursors returns the whole table in key order, every row
   exactly once, in max(1, ceil(n / limit)) pages.
   */
  lemma FixedTable<K(!new)>(less: (K, K) -> bool, table: seq<K>, tables: seq<seq<K>>, limit: nat)
    requires TotalOrder(less) && Distinct(table) && limit > 0 && forall t <- tables :: t == table
    requires |tables| >= Pages(|table|, limit)
    ensures Finished(less, tables, None, limit)
    ensures Collected(less, tables, None, limit) == Sort(less, table)
    ensures PagesRead(less, tables, None, limit) == Pages(|table|, limit)
  {
    EverythingIsBeyondNothing(less, table);
    SortSorts(less, table);
    FixedTableFrom(less, table, tables, None, limit);
  }

  /**
   Paging under concurrent inserts: when rows are only ever added, a client that follows the cursors
   to the end has every row present at its first request exactly once, in key order.
   */
  lemma PagingUnderInserts<K(!new)>(less: (K, K) -> bool, tables: seq<seq<K>>, limit: nat)
    requires TotalOrder(less) && limit > 0 && forall t <- tables :: Distinct(t)
    requires forall i, y :: 0 <= i < |tables| && y in tables[0] ==> y in tables[i]
    requires Finished(less, tables, None, limit)
    ensures var all := Collected(less, tables, None, limit);
            Ascending(less, all) && Distinct(all) && forall y <- tables[0] :: y in all
  {
    NoRowTwice(less, tables, None, limit);
    var all := Collected(less, tables, None, limit);
    forall i, k | 0 <= i < k < |all| ensures all[i] != all[k] { assert less(all[i], all[k]); }
    forall y | y in tables[0] ensures y in all { NoRowMissed(less, tables, None, limit, y); }
  }
}
