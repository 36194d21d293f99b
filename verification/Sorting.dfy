/** The stable `sort_by_key` and the arbitrary iteration order of hash maps. */
module Sorting {

  ghost predicate SortedBy<T>(key: T -> nat, s: seq<T>) {
    forall i, j :: 0 <= i < j < |s| ==> key(s[i]) <= key(s[j])
  }

  ghost predicate StrictlySortedBy<T>(key: T -> nat, s: seq<T>) {
    forall i, j :: 0 <= i < j < |s| ==> key(s[i]) < key(s[j])
  }

  ghost predicate DistinctBy<T>(key: T -> nat, s: seq<T>) {
    forall i, j :: 0 <= i < j < |s| ==> key(s[i]) != key(s[j])
  }

  /** Places `x` after every element whose key is at most its own. */
  function InsertByKey<T>(key: T -> nat, s: seq<T>, x: T): (r: seq<T>)
    ensures |r| == |s| + 1
  {
    if s == [] || key(s[|s| - 1]) <= key(x) then s + [x]
    else InsertByKey(key, s[..|s| - 1], x) + [s[|s| - 1]]
  }

  /** A stable sort by key, as insertion from left to right. */
  function SortByKey<T>(key: T -> nat, s: seq<T>): (r: seq<T>)
    ensures |r| == |s|
  {
    if s == [] then []
    else InsertByKey(key, SortByKey(key, s[..|s| - 1]), s[|s| - 1])
  }

  /** The elements whose key is `k`, in order. */
  function WithKey<T>(key: T -> nat, s: seq<T>, k: nat): seq<T> {
    if s == [] then []
    else WithKey(key, s[..|s| - 1], k) + (if key(s[|s| - 1]) == k then [s[|s| - 1]] else [])
  }

  lemma {:induction false} InsertPermutes<T>(key: T -> nat, s: seq<T>, x: T)
    ensures multiset(InsertByKey(key, s, x)) == multiset(s) + multiset{x}
  {
    if s != [] && key(s[|s| - 1]) > key(x) {
      InsertPermutes(key, s[..|s| - 1], x);
      assert s == s[..|s| - 1] + [s[|s| - 1]];
    }
  }

  lemma {:induction false} SortPermutes<T>(key: T -> nat, s: seq<T>)
    ensures multiset(SortByKey(key, s)) == multiset(s)
  {
    if s != [] {
      SortPermutes(key, s[..|s| - 1]);
      InsertPermutes(key, SortByKey(key, s[..|s| - 1]), s[|s| - 1]);
      assert s == s[..|s| - 1] + [s[|s| - 1]];
    }
  }

  lemma {:induction false} InsertKeepsOrder<T>(key: T -> nat, s: seq<T>, x: T)
    requires SortedBy(key, s)
    ensures SortedBy(key, InsertByKey(key, s, x))
    ensures |s| > 0 ==>
              key(InsertByKey(key, s, x)[|s|]) == (if key(s[|s| - 1]) <= key(x) then key(x) else key(s[|s| - 1]))
    ensures s == [] ==> InsertByKey(key, s, x) == [x]
  {
    hide SortedBy;
    if s == [] || key(s[|s| - 1]) <= key(x) {
      SortedSnoc(key, s, x);
    } else {
      var init, last := s[..|s| - 1], s[|s| - 1];
      SortedInit(key, s);
      InsertKeepsOrder(key, init, x);
      SortedSnoc(key, InsertByKey(key, init, x), last);
    }
  }

  lemma SortedSnoc<T>(key: T -> nat, s: seq<T>, x: T)
    requires SortedBy(key, s) && (s == [] || key(s[|s| - 1]) <= key(x))
    ensures SortedBy(key, s + [x])
  {
  }

  lemma SortedInit<T>(key: T -> nat, s: seq<T>)
    requires SortedBy(key, s) && s != []
    ensures SortedBy(key, s[..|s| - 1])
    ensures |s| > 1 ==> key(s[|s| - 2]) <= key(s[|s| - 1])
  {
  }

  lemma {:induction false} InsertIsStable<T>(key: T -> nat, s: seq<T>, x: T, k: nat)
    requires SortedBy(key, s)
    ensures WithKey(key, InsertByKey(key, s, x), k) == WithKey(key, s, k) + (if key(x) == k then [x] else [])
  {
    if s == [] || key(s[|s| - 1]) <= key(x) {
      assert (s + [x])[..|s|] == s;
    } else {
      var init, last := s[..|s| - 1], s[|s| - 1];
      InsertIsStable(key, init, x, k);
      var r := InsertByKey(key, init, x);
      assert (r + [last])[..|r|] == r;
      if key(x) == k {
        NoLaterKey(key, s, k);
      }
    }
  }

  lemma NoLaterKey<T>(key: T -> nat, s: seq<T>, k: nat)
    requires SortedBy(key, s) && s != [] && key(s[|s| - 1]) > k
    ensures WithKey(key, s, k) == WithKey(key, s[..|s| - 1], k)
  {
  }

  /** The sort is a sorted, stable permutation. */
  lemma {:induction false} SortByKeyIsStableSort<T>(key: T -> nat, s: seq<T>)
    ensures SortedBy(key, SortByKey(key, s))
    ensures multiset(SortByKey(key, s)) == multiset(s)
    ensures forall k: nat :: WithKey(key, SortByKey(key, s), k) == WithKey(key, s, k)
  {
    SortPermutes(key, s);
    if s != [] {
      var init, last := s[..|s| - 1], s[|s| - 1];
      SortByKeyIsStableSort(key, init);
      InsertKeepsOrder(key, SortByKey(key, init), last);
      forall k: nat
        ensures WithKey(key, SortByKey(key, s), k) == WithKey(key, s, k)
      {
        InsertIsStable(key, SortByKey(key, init), last, k);
      }
    }
  }

  lemma InsertLast<T>(key: T -> nat, s: seq<T>, x: T)
    requires s == [] || key(s[|s| - 1]) <= key(x)
    ensures InsertByKey(key, s, x) == s + [x]
  {
  }

  lemma SortKeepsElements<T>(key: T -> nat, s: seq<T>)
    ensures forall x :: x in SortByKey(key, s) <==> x in s
  {
    SortPermutes(key, s);
    assert forall x :: x in s <==> x in multiset(s);
    assert forall x :: x in SortByKey(key, s) <==> x in multiset(SortByKey(key, s));
  }

  /** Sorting a sorted sequence changes nothing. */
  lemma {:induction false} SortOfSorted<T>(key: T -> nat, s: seq<T>)
    requires SortedBy(key, s)
    ensures SortByKey(key, s) == s
  {
    if s != [] {
      var init, last := s[..|s| - 1], s[|s| - 1];
      SortOfSorted(key, init);
      InsertLast(key, init, last);
      assert s == init + [last];
    }
  }

  /** Sorting elements with distinct keys gives a strictly sorted sequence. */
  lemma SortedDistinctKeysStrict<T>(key: T -> nat, s: seq<T>)
    requires DistinctBy(key, s)
    ensures StrictlySortedBy(key, SortByKey(key, s))
  {
    hide SortByKey, WithKey, SumBy;
    var r := SortByKey(key, s);
    SortByKeyIsStableSort(key, s);
    DistinctByPermutation(key, s, r);
    SortedDistinctStrict(key, r);
  }

  lemma SortedDistinctStrict<T>(key: T -> nat, r: seq<T>)
    requires SortedBy(key, r) && DistinctBy(key, r)
    ensures StrictlySortedBy(key, r)
  {
  }

  lemma {:induction false} TwoWithKey<T>(key: T -> nat, s: seq<T>, i: nat, j: nat)
    requires i < j < |s| && key(s[i]) == key(s[j])
    ensures |WithKey(key, s, key(s[i]))| >= 2
  {
    if j < |s| - 1 {
      TwoWithKey(key, s[..|s| - 1], i, j);
    } else {
      HasWithKey(key, s[..|s| - 1], i);
    }
  }

  lemma {:induction false} HasWithKey<T>(key: T -> nat, s: seq<T>, i: nat)
    requires i < |s|
    ensures |WithKey(key, s, key(s[i]))| >= 1
  {
    if i < |s| - 1 {
      HasWithKey(key, s[..|s| - 1], i);
    }
  }

  lemma {:induction false} OneWithKey<T>(key: T -> nat, s: seq<T>, k: nat)
    requires DistinctBy(key, s)
    ensures |WithKey(key, s, k)| <= 1
    ensures |WithKey(key, s, k)| == 1 ==> exists i :: 0 <= i < |s| && key(s[i]) == k
  {
    if s != [] {
      OneWithKey(key, s[..|s| - 1], k);
    }
  }

  /** Strictly sorted sequences with the same elements are equal, so the order before sorting is irrelevant. */
  lemma {:induction false} StrictlySortedUnique<T>(key: T -> nat, s: seq<T>, r: seq<T>)
    requires StrictlySortedBy(key, s) && StrictlySortedBy(key, r)
    requires (forall x :: x in s ==> x in r) && (forall x :: x in r ==> x in s)
    ensures s == r
  {
    assert |r| > 0 ==> r[0] in r;
    if s != [] {
      assert s[0] in r;
      LastIsGreatest(key, s, r);
      var s0, r0 := s[..|s| - 1], r[..|r| - 1];
      assert s0 == r0 by {
        InitKeepsElements(key, s, r, s0, r0);
        InitKeepsElements(key, r, s, r0, s0);
        StrictlySortedUnique(key, s0, r0);
      }
      assert s == s0 + [s[|s| - 1]] && r == r0 + [r[|r| - 1]];
    }
  }

  lemma InitKeepsElements<T>(key: T -> nat, s: seq<T>, r: seq<T>, s0: seq<T>, r0: seq<T>)
    requires StrictlySortedBy(key, s) && s != [] && r != [] && s[|s| - 1] == r[|r| - 1]
    requires s0 == s[..|s| - 1] && r0 == r[..|r| - 1]
    requires forall x :: x in s ==> x in r
    ensures StrictlySortedBy(key, s0)
    ensures forall x :: x in s0 ==> x in r0
  {
    forall x | x in s0
      ensures x in r0
    {
      var i :| 0 <= i < |s| - 1 && s[i] == x;
      assert key(s[i]) < key(s[|s| - 1]);
      assert s[i] in s;
    }
  }

  lemma LastIsGreatest<T>(key: T -> nat, s: seq<T>, r: seq<T>)
    requires StrictlySortedBy(key, s) && StrictlySortedBy(key, r) && s != [] && r != []
    requires (forall x :: x in s ==> x in r) && (forall x :: x in r ==> x in s)
    ensures s[|s| - 1] == r[|r| - 1]
  {
    var x, y := s[|s| - 1], r[|r| - 1];
    assert x in r && y in s;
    var i :| 0 <= i < |r| && r[i] == x;
    var j :| 0 <= j < |s| && s[j] == y;
    assert i < |r| - 1 ==> key(x) < key(y);
    assert j < |s| - 1 ==> key(y) < key(x);
  }

  // ---------------------------------------------------------------------------
  // Sums over a sequence
  // ---------------------------------------------------------------------------

  function SumBy<T>(f: T -> nat, s: seq<T>): nat {
    if s == [] then 0 else SumBy(f, s[..|s| - 1]) + f(s[|s| - 1])
  }

  lemma {:induction false} SumByAppend<T>(f: T -> nat, s: seq<T>, r: seq<T>)
    ensures SumBy(f, s + r) == SumBy(f, s) + SumBy(f, r)
  {
    if r == [] {
      assert s + r == s;
    } else {
      assert (s + r)[..|s + r| - 1] == s + r[..|r| - 1];
      SumByAppend(f, s, r[..|r| - 1]);
    }
  }

  /** A sum does not depend on the order of the elements. */
  lemma {:induction false} SumByPermutation<T>(f: T -> nat, s: seq<T>, r: seq<T>)
    requires multiset(s) == multiset(r)
    ensures SumBy(f, s) == SumBy(f, r)
  {
    if s == [] {
      assert |multiset(r)| == 0;
    } else {
      var init, x := s[..|s| - 1], s[|s| - 1];
      assert x in multiset(r) by {
        assert x in s;
      }
      var j :| 0 <= j < |r| && r[j] == x;
      SumByRemove(f, r, j);
      SamePartsWithout(s, r, j);
      SumByPermutation(f, init, r[..j] + r[j + 1..]);
    }
  }

  lemma SumByLast<T>(f: T -> nat, s: seq<T>, x: T)
    ensures SumBy(f, s + [x]) == SumBy(f, s) + f(x)
  {
    assert (s + [x])[..|s|] == s;
  }

  lemma SumByRemove<T>(f: T -> nat, r: seq<T>, j: nat)
    requires j < |r|
    ensures SumBy(f, r) == SumBy(f, r[..j] + r[j + 1..]) + f(r[j])
  {
    hide SumBy;
    var before, x, after := r[..j], r[j], r[j + 1..];
    SplitAt(r, j);
    SumByAppend(f, before, after);
    SumByLast(f, before, x);
    SumByAppend(f, before + [x], after);
  }

  lemma SplitAt<T>(r: seq<T>, j: nat)
    requires j < |r|
    ensures r == (r[..j] + [r[j]]) + r[j + 1..]
  {
  }

  lemma SamePartsWithout<T>(s: seq<T>, r: seq<T>, j: nat)
    requires multiset(s) == multiset(r) && s != [] && j < |r| && r[j] == s[|s| - 1]
    ensures multiset(s[..|s| - 1]) == multiset(r[..j] + r[j + 1..])
  {
    PartsWithout(s, |s| - 1);
    PartsWithout(r, j);
    assert s[|s|..] == [] && s[..|s| - 1] + [] == s[..|s| - 1];
  }

  lemma PartsWithout<T>(r: seq<T>, j: nat)
    requires j < |r|
    ensures multiset(r[..j] + r[j + 1..]) == multiset(r) - multiset{r[j]}
  {
    var before, x, after := r[..j], r[j], r[j + 1..];
    SplitAt(r, j);
    assert multiset(r) == multiset(before) + multiset{x} + multiset(after);
    assert multiset(before + after) == multiset(before) + multiset(after);
  }

  lemma {:induction false} SumByOfPart<T>(f: T -> nat, s: seq<T>, i: nat)
    requires i < |s|
    ensures f(s[i]) <= SumBy(f, s)
  {
    if i < |s| - 1 {
      SumByOfPart(f, s[..|s| - 1], i);
    }
  }

  lemma {:induction false} SumByCongruence<T>(f: T -> nat, g: T -> nat, s: seq<T>)
    requires forall i :: 0 <= i < |s| ==> f(s[i]) == g(s[i])
    ensures SumBy(f, s) == SumBy(g, s)
  {
    if s != [] {
      SumByCongruence(f, g, s[..|s| - 1]);
    }
  }

  /** A sum with a single nonzero term. */
  lemma {:induction false} SumByOnly<T>(f: T -> nat, s: seq<T>, k: nat)
    requires k < |s| && forall i :: 0 <= i < |s| && i != k ==> f(s[i]) == 0
    ensures SumBy(f, s) == f(s[k])
  {
    if k < |s| - 1 {
      SumByOnly(f, s[..|s| - 1], k);
    } else {
      SumByZero(f, s[..k]);
    }
  }

  lemma {:induction false} SumByZero<T>(f: T -> nat, s: seq<T>)
    requires forall i :: 0 <= i < |s| ==> f(s[i]) == 0
    ensures SumBy(f, s) == 0
  {
    if s != [] {
      SumByZero(f, s[..|s| - 1]);
    }
  }

  /** Raising one term of a sum raises the sum by as much. */
  lemma {:induction false} SumByRaised<T>(f: T -> nat, g: T -> nat, s: seq<T>, k: nat, amount: nat)
    requires k < |s| && g(s[k]) == f(s[k]) + amount
    requires forall i :: 0 <= i < |s| && i != k ==> g(s[i]) == f(s[i])
    ensures SumBy(g, s) == SumBy(f, s) + amount
  {
    if k < |s| - 1 {
      SumByRaised(f, g, s[..|s| - 1], k, amount);
    } else {
      SumByCongruence(f, g, s[..k]);
    }
  }

  function HasKey<T>(key: T -> nat, k: nat): T -> nat {
    (x: T) => if key(x) == k then 1 else 0
  }

  lemma {:induction false} WithKeyCount<T>(key: T -> nat, s: seq<T>, k: nat)
    ensures |WithKey(key, s, k)| == SumBy(HasKey(key, k), s)
  {
    if s != [] {
      WithKeyCount(key, s[..|s| - 1], k);
    }
  }

  /** A permutation of elements with distinct keys has distinct keys. */
  lemma DistinctByPermutation<T>(key: T -> nat, s: seq<T>, r: seq<T>)
    requires multiset(s) == multiset(r) && DistinctBy(key, s)
    ensures DistinctBy(key, r)
  {
    forall i, j | 0 <= i < j < |r|
      ensures key(r[i]) != key(r[j])
    {
      if key(r[i]) == key(r[j]) {
        var k := key(r[i]);
        TwoWithKey(key, r, i, j);
        OneWithKey(key, s, k);
        WithKeyCount(key, s, k);
        WithKeyCount(key, r, k);
        SumByPermutation(HasKey(key, k), s, r);
      }
    }
  }

  // ---------------------------------------------------------------------------
  // Hash-map iteration
  // ---------------------------------------------------------------------------

  ghost predicate Distinct<T>(s: seq<T>) {
    forall i, j :: 0 <= i < j < |s| ==> s[i] != s[j]
  }

  /** `order` lists every element of `keys` once; a hash map may iterate in any such order. */
  ghost predicate IsEnumeration<T>(order: seq<T>, keys: set<T>) {
    && Distinct(order)
    && (forall x :: x in order ==> x in keys)
    && (forall x :: x in keys ==> x in order)
  }

  /** Any order a hash map might iterate its keys in. */
  method Enumerate<T(==)>(keys: set<T>) returns (order: seq<T>)
    ensures IsEnumeration(order, keys)
  {
    order := [];
    var rest := keys;
    while rest != {}
      invariant rest <= keys
      invariant IsEnumeration(order, keys - rest)
    {
      var x :| x in rest;
      rest := rest - {x};
      order := order + [x];
    }
  }

  lemma {:induction false} EnumerationLength<T>(order: seq<T>, keys: set<T>)
    requires IsEnumeration(order, keys)
    ensures |order| == |keys|
  {
    if order != [] {
      var init, x := order[..|order| - 1], order[|order| - 1];
      assert forall y :: y in keys - {x} ==> y in init;
      EnumerationLength(init, keys - {x});
    }
  }

  lemma EnumerationExists<T>(keys: set<T>) returns (order: seq<T>)
    ensures IsEnumeration(order, keys)
    decreases |keys|
  {
    if keys == {} {
      order := [];
    } else {
      var x :| x in keys;
      order := EnumerationExists(keys - {x});
      order := order + [x];
    }
  }
}
