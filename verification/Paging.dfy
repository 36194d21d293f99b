/** Paging over checkpointed records: every page call lists the live tables in a new order. */
module Paging {
  import opened Wrappers
  import opened Records
  import opened Sorting
  import opened Layout
  import opened Streams
  import opened DataFile

  /** At most `n` elements from position `lo` on. */
  function Window<T>(all: seq<T>, lo: nat, n: nat): seq<T> {
    all[Min(lo, |all|)..Min(lo + n, |all|)]
  }

  lemma WindowExtends<T>(all: seq<T>, lo: nat, n: nat)
    ensures all[..Min(lo, |all|)] + Window(all, lo, n) == all[..Min(lo + n, |all|)]
  {
  }

  /** The page that one call returns when it lists the tables in `order`. */
  function PageUnder<T>(tables: map<nat, seq<T>>, order: seq<nat>, page: nat, limit: nat): seq<T> {
    Window(Concat(tables, order), page * limit, limit)
  }

  /** On a file whose live tables are readable, that is the page read from it. */
  lemma PageOfFile<T>(kind: RecordKind<T>, file: File, config: Config, live: set<nat>, order: seq<nat>, page: nat,
                      limit: nat)
    requires AllReadable(kind, file, config, live) && IsEnumeration(order, live)
    ensures PageOf(Lsm.TablesStream(kind, file, config, order), page, limit)
         == Ok(PageUnder(Tables(kind, file, config, live), order, page, limit))
  {
    hide Lsm.TablesStream, Lsm.TableStream, PageOf;
    TablesInOrder(kind, file, config, live, order);
    PageIs(Lsm.TablesStream(kind, file, config, order), page, limit);
  }

  /** Pages 0, 1, ... one after the other, page `i` read under `orders[i]`. */
  function PagesUnder<T>(tables: map<nat, seq<T>>, orders: seq<seq<nat>>, limit: nat): seq<T> {
    if orders == [] then []
    else
      var k := |orders| - 1;
      PagesUnder(tables, orders[..k], limit) + PageUnder(tables, orders[k], k, limit)
  }

  ghost predicate AllOrders<T>(tables: map<nat, seq<T>>, orders: seq<seq<nat>>) {
    forall i :: 0 <= i < |orders| ==> IsEnumeration(orders[i], tables.Keys)
  }

  ghost predicate AtMostOneFilled<T>(tables: map<nat, seq<T>>) {
    forall a, b :: a in tables && b in tables && tables[a] != [] && tables[b] != [] ==> a == b
  }

  // ---------------------------------------------------------------------------
  // Every order lists the same records
  // ---------------------------------------------------------------------------

  lemma ConcatOne<T>(tables: map<nat, seq<T>>, a: nat)
    ensures Concat(tables, [a]) == if a in tables then tables[a] else []
  {
    assert [a][1..] == [];
  }

  lemma {:induction false} DistinctCounts<T>(s: seq<T>, x: T)
    requires Distinct(s)
    ensures multiset(s)[x] == if x in s then 1 else 0
  {
    if s != [] {
      var init, y := s[..|s| - 1], s[|s| - 1];
      assert s == init + [y];
      DistinctCounts(init, x);
    }
  }

  /** Listing the tables in another order lists the same records. */
  lemma {:induction false} ConcatPermutes<T>(tables: map<nat, seq<T>>, p: seq<nat>, q: seq<nat>, keys: set<nat>)
    requires IsEnumeration(p, keys) && IsEnumeration(q, keys)
    ensures multiset(Concat(tables, p)) == multiset(Concat(tables, q))
    ensures |Concat(tables, p)| == |Concat(tables, q)|
    decreases |p|
  {
    hide Concat, IsEnumeration;
    EnumerationLength(p, keys);
    EnumerationLength(q, keys);
    if p != [] {
      var a, rest := p[0], p[1..];
      var j := IndexIn(p, q, keys);
      var q1, q2 := q[..j], q[j + 1..];
      assert p == [a] + rest && q == q1 + [a] + q2;
      Without(p, 0, keys);
      Without(q, j, keys);
      assert p[..0] + rest == rest;
      ConcatPermutes(tables, rest, q1 + q2, keys - {a});
      ConcatMoved(tables, a, rest, q1, q2);
    }
    assert |multiset(Concat(tables, p))| == |Concat(tables, p)|;
    assert |multiset(Concat(tables, q))| == |Concat(tables, q)|;
  }

  lemma IndexIn(p: seq<nat>, q: seq<nat>, keys: set<nat>) returns (j: nat)
    requires IsEnumeration(p, keys) && IsEnumeration(q, keys) && p != []
    ensures j < |q| && q[j] == p[0]
  {
    assert p[0] in q;
    j :| 0 <= j < |q| && q[j] == p[0];
  }

  lemma ConcatMoved<T>(tables: map<nat, seq<T>>, a: nat, rest: seq<nat>, q1: seq<nat>, q2: seq<nat>)
    requires multiset(Concat(tables, rest)) == multiset(Concat(tables, q1 + q2))
    ensures multiset(Concat(tables, [a] + rest)) == multiset(Concat(tables, q1 + [a] + q2))
  {
    hide Concat;
    ConcatAppend(tables, [a], rest);
    ConcatAppend(tables, q1 + [a], q2);
    ConcatAppend(tables, q1, [a]);
    ConcatAppend(tables, q1, q2);
  }

  lemma Without(p: seq<nat>, j: nat, keys: set<nat>)
    requires IsEnumeration(p, keys) && j < |p|
    ensures IsEnumeration(p[..j] + p[j + 1..], keys - {p[j]})
  {
    var r := p[..j] + p[j + 1..];
    assert forall i :: 0 <= i < |r| ==> r[i] == p[if i < j then i else i + 1];
    forall x | x in keys - {p[j]}
      ensures x in r
    {
      assert x in p;
      var i :| 0 <= i < |p| && p[i] == x;
      assert r[if i < j then i else i - 1] == x;
    }
  }

  // ---------------------------------------------------------------------------
  // When paging is complete
  // ---------------------------------------------------------------------------

  lemma {:induction false} ConcatOfNone<T>(tables: map<nat, seq<T>>, order: seq<nat>)
    requires forall a :: a in order && a in tables ==> tables[a] == []
    ensures Concat(tables, order) == []
  {
    if order != [] {
      ConcatOfNone(tables, order[1..]);
    }
  }

  lemma {:induction false} ConcatOfOne<T>(tables: map<nat, seq<T>>, order: seq<nat>, a: nat)
    requires Distinct(order) && a in order && a in tables
    requires forall b :: b in order && b in tables && b != a ==> tables[b] == []
    ensures Concat(tables, order) == tables[a]
  {
    var rest := order[1..];
    assert forall i :: 0 <= i < |rest| ==> rest[i] == order[i + 1];
    if order[0] == a {
      ConcatOfNone(tables, rest);
      assert tables[a] + [] == tables[a];
    } else {
      ConcatOfOne(tables, rest, a);
      assert [] + tables[a] == tables[a];
    }
  }

  lemma OneFilledSameConcat<T>(tables: map<nat, seq<T>>, p: seq<nat>, q: seq<nat>)
    requires AtMostOneFilled(tables) && IsEnumeration(p, tables.Keys) && IsEnumeration(q, tables.Keys)
    ensures Concat(tables, p) == Concat(tables, q)
  {
    if a :| a in tables && tables[a] != [] {
      ConcatOfOne(tables, p, a);
      ConcatOfOne(tables, q, a);
    } else {
      ConcatOfNone(tables, p);
      ConcatOfNone(tables, q);
    }
  }

  lemma NextPage(k: nat, limit: nat)
    ensures (k + 1) * limit == k * limit + limit
    ensures k > 0 ==> k * limit >= limit
  {
  }

  /** If every call lists the same records in the same order, the pages tile them. */
  lemma {:induction false} SameListingTiles<T>(tables: map<nat, seq<T>>, orders: seq<seq<nat>>, limit: nat, all: seq<T>)
    requires forall i :: 0 <= i < |orders| ==> Concat(tables, orders[i]) == all
    ensures PagesUnder(tables, orders, limit) == all[..Min(|orders| * limit, |all|)]
  {
    hide Concat, Window;
    if orders != [] {
      var k: nat := |orders| - 1;
      SameListingTiles(tables, orders[..k], limit, all);
      WindowExtends(all, k * limit, limit);
      NextPage(k, limit);
    }
  }

  lemma WholeWindow<T>(all: seq<T>, lo: nat, n: nat)
    requires |all| <= n
    ensures lo == 0 ==> Window(all, lo, n) == all
    ensures lo >= n ==> Window(all, lo, n) == []
  {
  }

  /** If one page holds everything, the later pages are empty. */
  lemma {:induction false} OnePageHoldsAll<T>(tables: map<nat, seq<T>>, orders: seq<seq<nat>>, limit: nat)
    requires orders != [] && forall i :: 0 <= i < |orders| ==> |Concat(tables, orders[i])| <= limit
    ensures PagesUnder(tables, orders, limit) == Concat(tables, orders[0])
  {
    hide Concat, Window;
    var k: nat := |orders| - 1;
    NextPage(k, limit);
    WholeWindow(Concat(tables, orders[k]), k * limit, limit);
    if k == 0 {
      assert orders[..0] == [];
    } else {
      OnePageHoldsAll(tables, orders[..k], limit);
      assert Concat(tables, orders[0]) + [] == Concat(tables, orders[0]);
    }
  }

  lemma {:induction false} PageIncluded<T>(tables: map<nat, seq<T>>, orders: seq<seq<nat>>, limit: nat, m: nat)
    requires m < |orders|
    ensures multiset(PagesUnder(tables, orders[..m], limit)) + multiset(PageUnder(tables, orders[m], m, limit))
         <= multiset(PagesUnder(tables, orders, limit))
  {
    hide PageUnder;
    var k := |orders| - 1;
    if m < k {
      PageIncluded(tables, orders[..k], limit, m);
      assert orders[..k][..m] == orders[..m];
    }
  }

  /** A record on page 0 under one order and on a later page under another is returned twice. */
  lemma SeenTwice<T>(tables: map<nat, seq<T>>, orders: seq<seq<nat>>, limit: nat, m: nat, x: T)
    requires 0 < m < |orders|
    requires x in PageUnder(tables, orders[0], 0, limit) && x in PageUnder(tables, orders[m], m, limit)
    ensures multiset(PagesUnder(tables, orders, limit))[x] >= 2
  {
    hide PagesUnder, PageUnder;
    PageIncluded(tables, orders, limit, m);
    PageIncluded(tables, orders[..m], limit, 0);
  }

  /** Where a record of table `a` stands when the table is listed first and when it is listed last. */
  lemma FirstAndLast<T>(tables: map<nat, seq<T>>, rest: seq<nat>, a: nat)
    requires a in tables
    ensures Concat(tables, [a] + rest) == tables[a] + Concat(tables, rest)
    ensures Concat(tables, rest + [a]) == Concat(tables, rest) + tables[a]
  {
    ConcatOne(tables, a);
    ConcatAppend(tables, [a], rest);
    ConcatAppend(tables, rest, [a]);
  }

  /** The page that position `pos` is on. */
  function PageNumber(pos: nat, limit: nat): (page: nat)
    requires limit > 0
    ensures page * limit <= pos < page * limit + limit
    ensures page == 0 <==> pos < limit
  {
    if pos < limit then 0
    else
      var before := PageNumber(pos - limit, limit);
      NextPage(before, limit);
      before + 1
  }

  lemma OnPage<T>(tables: map<nat, seq<T>>, order: seq<nat>, limit: nat, pos: nat)
    requires limit > 0 && pos < |Concat(tables, order)|
    ensures Concat(tables, order)[pos] in PageUnder(tables, order, PageNumber(pos, limit), limit)
  {
    hide Concat, Window;
    InWindow(Concat(tables, order), PageNumber(pos, limit) * limit, limit, pos);
  }

  lemma InWindow<T>(all: seq<T>, lo: nat, n: nat, pos: nat)
    requires lo <= pos < lo + n && pos < |all|
    ensures all[pos] in Window(all, lo, n)
  {
    assert Window(all, lo, n)[pos - lo] == all[pos];
  }

  lemma FewerPages(m: nat, k: nat, limit: nat)
    requires m * limit < k * limit
    ensures m < k
  {
    if m >= k {
      MorePages(m, k, limit);
    }
  }

  lemma MorePages(m: nat, k: nat, limit: nat)
    requires m >= k
    ensures m * limit >= k * limit
  {
    assert m * limit == k * limit + (m - k) * limit;
  }

  /** With table `a`, another filled table and more than one page, some choice of orders returns a record twice. */
  lemma SomeOrdersRepeat<T>(tables: map<nat, seq<T>>, limit: nat, k: nat, a: nat, b: nat)
    returns (orders: seq<seq<nat>>, x: T)
    requires limit > 0 && a in tables && b in tables && a != b && tables[a] != [] && tables[b] != []
    requires forall order :: IsEnumeration(order, tables.Keys) ==> limit < |Concat(tables, order)| <= k * limit
    ensures |orders| == k && AllOrders(tables, orders) && multiset(PagesUnder(tables, orders, limit))[x] >= 2
  {
    hide Concat, PageUnder, PagesUnder;
    var rest := OrderEndingIn(tables.Keys, a);
    var p, q := [a] + rest, rest + [a];
    EndsSwap(rest, a, tables.Keys);
    FirstAndLast(tables, rest, a);
    assert b in q && b in rest;
    ConcatContains(tables, rest, b, tables[b][0]);
    var j: nat := Min(|tables[a]|, limit) - 1;
    var pos: nat := |Concat(tables, rest)| + j;
    x := tables[a][j];
    var m := LaterPage(tables, p, q, limit, k, j, pos);
    orders := [p] + seq(k - 1, _ => q);
    assert orders[m] == q;
    SeenTwice(tables, orders, limit, m, x);
  }

  lemma EndsSwap(rest: seq<nat>, a: nat, keys: set<nat>)
    requires IsEnumeration(rest + [a], keys)
    ensures IsEnumeration([a] + rest, keys)
  {
    var p, q := [a] + rest, rest + [a];
    assert q[|rest|] == a && forall i :: 0 <= i < |rest| ==> q[i] == rest[i] && p[i + 1] == rest[i];
    assert forall x :: x in p <==> x in q;
  }

  lemma LaterPage<T>(tables: map<nat, seq<T>>, p: seq<nat>, q: seq<nat>, limit: nat, k: nat, j: nat, pos: nat)
    returns (m: nat)
    requires 0 < limit && j < limit && j < |Concat(tables, p)| && limit <= pos < |Concat(tables, q)| <= k * limit
    ensures 0 < m < k
    ensures Concat(tables, p)[j] in PageUnder(tables, p, 0, limit)
    ensures Concat(tables, q)[pos] in PageUnder(tables, q, m, limit)
  {
    hide Concat, PageUnder;
    OnPage(tables, p, limit, j);
    OnPage(tables, q, limit, pos);
    m := PageNumber(pos, limit);
    FewerPages(m, k, limit);
  }

  /**
    With pairwise different records and enough pages, reading page after page returns every record once
    for every choice of orders if and only if at most one table yields records or one page holds them all.
   */
  lemma PagingCompleteIff<T>(tables: map<nat, seq<T>>, base: seq<nat>, limit: nat, k: nat)
    requires limit > 0 && IsEnumeration(base, tables.Keys) && Distinct(Concat(tables, base))
    requires |Concat(tables, base)| <= k * limit
    ensures (forall orders :: AllOrders(tables, orders) && |orders| == k ==>
               multiset(PagesUnder(tables, orders, limit)) == multiset(Concat(tables, base)))
            <==> AtMostOneFilled(tables) || |Concat(tables, base)| <= limit
  {
    var all := Concat(tables, base);
    forall order | IsEnumeration(order, tables.Keys)
      ensures |Concat(tables, order)| == |all|
    {
      ConcatPermutes(tables, order, base, tables.Keys);
    }
    if AtMostOneFilled(tables) || |all| <= limit {
      forall orders | AllOrders(tables, orders) && |orders| == k
        ensures multiset(PagesUnder(tables, orders, limit)) == multiset(all)
      {
        CompletePages(tables, base, orders, limit);
      }
    } else {
      var a, b :| a in tables && b in tables && tables[a] != [] && tables[b] != [] && a != b;
      var orders, x := SomeOrdersRepeat(tables, limit, k, a, b);
      DistinctCounts(all, x);
      assert AllOrders(tables, orders);
    }
  }

  lemma CompletePages<T>(tables: map<nat, seq<T>>, base: seq<nat>, orders: seq<seq<nat>>, limit: nat)
    requires AllOrders(tables, orders) && IsEnumeration(base, tables.Keys) && |Concat(tables, base)| <= |orders| * limit
    requires AtMostOneFilled(tables) || |Concat(tables, base)| <= limit
    ensures multiset(PagesUnder(tables, orders, limit)) == multiset(Concat(tables, base))
  {
    hide Concat, PagesUnder, IsEnumeration;
    var all := Concat(tables, base);
    if AtMostOneFilled(tables) {
      forall i | 0 <= i < |orders|
        ensures Concat(tables, orders[i]) == all
      {
        OneFilledSameConcat(tables, orders[i], base);
      }
      SameListingTiles(tables, orders, limit, all);
      assert all[..|all|] == all;
    } else if orders == [] {
      SameListingTiles(tables, orders, limit, all);
    } else {
      forall i | 0 <= i < |orders|
        ensures |Concat(tables, orders[i])| <= limit
      {
        ConcatPermutes(tables, orders[i], base, tables.Keys);
      }
      OnePageHoldsAll(tables, orders, limit);
      ConcatPermutes(tables, orders[0], base, tables.Keys);
    }
  }

  /** Two tables of one account each, one record a page: listed the other way round on page 1, account 8 is lost. */
  lemma RecordLostExample()
    ensures var x, y := Account(7, 0, 0, 0, 0, 0, 0, 0, 0, 1, 1, 0, 9), Account(8, 0, 0, 0, 0, 0, 0, 0, 0, 1, 1, 0, 10);
            var tables := map[1 := [x], 2 := [y]];
            && AllOrders(tables, [[1, 2], [2, 1]])
            && PageUnder(tables, [1, 2], 0, 1) == [x] && PageUnder(tables, [2, 1], 1, 1) == [x]
            && y !in PagesUnder(tables, [[1, 2], [2, 1]], 1)
  {
    var x, y := Account(7, 0, 0, 0, 0, 0, 0, 0, 0, 1, 1, 0, 9), Account(8, 0, 0, 0, 0, 0, 0, 0, 0, 1, 1, 0, 10);
    var tables := map[1 := [x], 2 := [y]];
    FirstAndLast(tables, [2], 1);
    ConcatOne(tables, 2);
    assert [1] + [2] == [1, 2] && [2] + [1] == [2, 1];
    var orders: seq<seq<nat>> := [[1, 2], [2, 1]];
    assert orders[..1] == [[1, 2]];
    assert PagesUnder(tables, orders[..1], 1) == [] + PageUnder(tables, [1, 2], 0, 1) == [x];
  }
}
