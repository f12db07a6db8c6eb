/** Generic sequence helpers shared by the queries: the `where` filter, the
    `orderBy: { createdAt: 'desc' }` ordering and the `skip`/`take` window. */
module Seqs {

  function Min(a: int, b: int): int { if a <= b then a else b }

  /** The elements of `s` that satisfy `p`, in their original order. */
  function Filter<T(!new)>(s: seq<T>, p: T -> bool): (r: seq<T>)
    ensures |r| <= |s|
    ensures forall x :: x in r <==> x in s && p(x)
  {
    if s == [] then []
    else
      var init, last := s[..|s| - 1], s[|s| - 1];
      assert s == init + [last];
      if p(last) then Filter(init, p) + [last] else Filter(init, p)
  }

  lemma FilterSnoc<T(!new)>(s: seq<T>, x: T, p: T -> bool)
    ensures Filter(s + [x], p) == if p(x) then Filter(s, p) + [x] else Filter(s, p)
  {
    assert (s + [x])[..|s|] == s;
  }

  /** Each element kept by the filter keeps its multiplicity. */
  lemma {:induction false} FilterCounts<T(!new)>(s: seq<T>, p: T -> bool)
    ensures forall x :: multiset(Filter(s, p))[x] == if p(x) then multiset(s)[x] else 0
    decreases |s|
  {
    if s != [] {
      var init, last := s[..|s| - 1], s[|s| - 1];
      assert s == init + [last];
      FilterCounts(init, p);
      FilterSnoc(init, last, p);
    }
  }

  /** `s` is ordered newest first with respect to `key`. */
  ghost predicate NewestFirst<T>(s: seq<T>, key: T -> int)
  {
    forall i, j :: 0 <= i < j < |s| ==> key(s[i]) >= key(s[j])
  }

  /** With distinct keys no element occurs twice. */
  lemma {:induction false} DistinctByNoDuplicates<T, K>(s: seq<T>, key: T -> K)
    requires DistinctBy(s, key)
    ensures forall x :: multiset(s)[x] <= 1
    decreases |s|
  {
    if s != [] {
      var init, last := s[..|s| - 1], s[|s| - 1];
      assert s == init + [last];
      assert DistinctBy(init, key) by {
        forall i, j | 0 <= i < j < |init| ensures key(init[i]) != key(init[j]) {
          assert init[i] == s[i] && init[j] == s[j];
        }
      }
      DistinctByNoDuplicates(init, key);
      assert forall j :: 0 <= j < |init| ==> init[j] == s[j] && key(s[j]) != key(last);
    }
  }

  /** Distinct keys are a property of the elements, not of their order. */
  lemma DistinctByPermutation<T, K>(s: seq<T>, t: seq<T>, key: T -> K)
    requires DistinctBy(s, key) && multiset(s) == multiset(t)
    ensures DistinctBy(t, key)
  {
    DistinctByNoDuplicates(s, key);
    forall i, j | 0 <= i < j < |t| ensures key(t[i]) != key(t[j]) {
      assert t[i] in multiset(s) && t[j] in multiset(s);
      var i' :| 0 <= i' < |s| && s[i'] == t[i];
      var j' :| 0 <= j' < |s| && s[j'] == t[j];
      assert t == t[..j] + t[j..];
      assert t[..j][i] == t[i] && t[j..][0] == t[j];
      assert t[i] in multiset(t[..j]) && t[j] in multiset(t[j..]);
    }
  }

  /** With distinct keys there is only one newest-first order: any two
      newest-first arrangements of the same elements are equal. */
  lemma {:induction false} NewestFirstIsUnique<T>(a: seq<T>, b: seq<T>, key: T -> int)
    requires DistinctBy(a, key) && multiset(a) == multiset(b)
    requires NewestFirst(a, key) && NewestFirst(b, key)
    ensures a == b
    decreases |a|
  {
    if a != [] {
      NewestFirstSameHead(a, b, key);
      TailsOfSameHead(a, b);
      DistinctByTail(a, key);
      NewestFirstTail(a, key);
      NewestFirstTail(b, key);
      NewestFirstIsUnique(a[1..], b[1..], key);
      assert a == [a[0]] + a[1..] && b == [b[0]] + b[1..];
    }
  }

  /** Both arrangements start with the newest element, which distinct keys
      make unique. */
  lemma NewestFirstSameHead<T>(a: seq<T>, b: seq<T>, key: T -> int)
    requires DistinctBy(a, key) && multiset(a) == multiset(b) && a != []
    requires NewestFirst(a, key) && NewestFirst(b, key)
    ensures b != [] && a[0] == b[0]
  {
    assert |b| == |multiset(b)| == |a|;
    assert b[0] in multiset(a) && a[0] in multiset(b);
    var j :| 0 <= j < |a| && a[j] == b[0];
    var m :| 0 <= m < |b| && b[m] == a[0];
    assert key(a[0]) >= key(a[j]) && key(b[0]) >= key(b[m]);
  }

  lemma TailsOfSameHead<T>(a: seq<T>, b: seq<T>)
    requires a != [] && b != [] && a[0] == b[0] && multiset(a) == multiset(b)
    ensures multiset(a[1..]) == multiset(b[1..])
  {
    assert a == [a[0]] + a[1..] && b == [b[0]] + b[1..];
    assert multiset(a[1..]) == multiset(a) - multiset{a[0]};
    assert multiset(b[1..]) == multiset(b) - multiset{b[0]};
  }

  lemma DistinctByTail<T, K>(a: seq<T>, key: T -> K)
    requires DistinctBy(a, key) && a != []
    ensures DistinctBy(a[1..], key)
  {
    forall i, k | 0 <= i < k < |a[1..]| ensures key(a[1..][i]) != key(a[1..][k]) {
      assert a[1..][i] == a[i + 1] && a[1..][k] == a[k + 1];
    }
  }

  lemma NewestFirstTail<T>(a: seq<T>, key: T -> int)
    requires NewestFirst(a, key) && a != []
    ensures NewestFirst(a[1..], key)
  {
    forall i, k | 0 <= i < k < |a[1..]| ensures key(a[1..][i]) >= key(a[1..][k]) {
      assert a[1..][i] == a[i + 1] && a[1..][k] == a[k + 1];
    }
  }

  /** Inserts `x` in front of the first element that is not newer than it. */
  function Insert<T>(x: T, s: seq<T>, key: T -> int): (r: seq<T>)
    ensures |r| == |s| + 1
    ensures multiset(r) == multiset(s) + multiset{x}
    ensures r[0] == x || (|s| > 0 && r[0] == s[0])
    ensures NewestFirst(s, key) ==> NewestFirst(r, key)
  {
    if s == [] then [x]
    else if key(x) >= key(s[0]) then [x] + s
    else
      var rest := Insert(x, s[1..], key);
      assert s == [s[0]] + s[1..];
      NewestFirstCons(s[0], rest, key);
      [s[0]] + rest
  }

  /** A sequence stays newest first when an element no older than its head
      is put in front. */
  lemma NewestFirstCons<T>(h: T, t: seq<T>, key: T -> int)
    ensures NewestFirst(t, key) && (t != [] ==> key(h) >= key(t[0])) ==> NewestFirst([h] + t, key)
  {
    if NewestFirst(t, key) && (t != [] ==> key(h) >= key(t[0])) {
      forall i, j | 0 <= i < j < |[h] + t| ensures key(([h] + t)[i]) >= key(([h] + t)[j]) {
        if i > 0 {
          assert ([h] + t)[i] == t[i - 1];
        }
        assert ([h] + t)[j] == t[j - 1];
      }
    }
  }

  /** A stable sort, newest first: the order `orderBy: { createdAt: 'desc' }`
      asks for, with ties kept in table order. */
  function SortNewestFirst<T>(s: seq<T>, key: T -> int): (r: seq<T>)
    ensures |r| == |s|
    ensures multiset(r) == multiset(s)
    ensures NewestFirst(r, key)
  {
    if s == [] then []
    else
      assert s == [s[0]] + s[1..];
      Insert(s[0], SortNewestFirst(s[1..], key), key)
  }

  /** The `skip`/`take` window of a query result. */
  function Page<T>(s: seq<T>, skip: nat, take: nat): (r: seq<T>)
    ensures |r| <= take
    ensures |r| == if skip >= |s| then 0 else Min(take, |s| - skip)
    ensures forall j :: 0 <= j < |r| ==> r[j] == s[skip + j]
  {
    if skip >= |s| then [] else s[skip..Min(skip + take, |s|)]
  }

  /** Pages 1 .. n of size `size`, one after the other. */
  function FirstPages<T>(s: seq<T>, size: nat, n: nat): seq<T>
  {
    if n == 0 then [] else FirstPages(s, size, n - 1) + Page(s, (n - 1) * size, size)
  }

  /** Consecutive pages do not overlap and leave no gap: together the first
      `n` pages are exactly the first `n * size` elements, in order. */
  lemma {:induction false} FirstPagesArePrefix<T>(s: seq<T>, size: nat, n: nat)
    ensures FirstPages(s, size, n) == s[..Min(n * size, |s|)]
  {
    if n > 0 {
      FirstPagesArePrefix(s, size, n - 1);
      MulStep(n, size);
      PagesStep(s, FirstPages(s, size, n - 1), (n - 1) * size, size, n * size);
    }
  }

  /** One more page extends a prefix ending at `lo` to one ending at `hi`. */
  lemma PagesStep<T>(s: seq<T>, prefix: seq<T>, lo: nat, size: nat, hi: nat)
    requires prefix == s[..Min(lo, |s|)] && hi == lo + size
    ensures prefix + Page(s, lo, size) == s[..Min(hi, |s|)]
  {
    if lo < |s| {
      assert s[..Min(hi, |s|)] == s[..lo] + s[lo..Min(hi, |s|)];
    }
  }

  lemma MulStep(n: nat, size: nat)
    requires n > 0
    ensures n * size == (n - 1) * size + size
  {
  }

  /** Pages 1 .. |orders|, page k cut from `orders[k - 1]`: each page read
      in a separate call, from that call's own arrangement. */
  function PagesIn<T>(orders: seq<seq<T>>, size: nat): seq<T>
  {
    if orders == [] then []
    else
      var n := |orders| - 1;
      PagesIn(orders[..n], size) + Page(orders[n], n * size, size)
  }

  /** When every call sees the same arrangement `s`, the pages read are
      pages 1 .. n of `s`. */
  lemma {:induction false} PagesOfOneOrder<T>(orders: seq<seq<T>>, s: seq<T>, size: nat)
    requires forall k :: 0 <= k < |orders| ==> orders[k] == s
    ensures PagesIn(orders, size) == FirstPages(s, size, |orders|)
    decreases |orders|
  {
    if orders != [] {
      var n := |orders| - 1;
      assert forall k :: 0 <= k < n ==> orders[..n][k] == orders[k];
      PagesOfOneOrder(orders[..n], s, size);
    }
  }

  /** Once the pages reach past the end, they hold the whole sequence. */
  lemma PagesCoverAll<T>(s: seq<T>, size: nat, n: nat)
    requires n * size >= |s|
    ensures FirstPages(s, size, n) == s
  {
    FirstPagesArePrefix(s, size, n);
  }

  /** No two positions of `s` share a key. */
  ghost predicate DistinctBy<T, K>(s: seq<T>, key: T -> K)
  {
    forall i, j :: 0 <= i < j < |s| ==> key(s[i]) != key(s[j])
  }

  /** Every key of `s` is below `bound` (an auto-increment's next value). */
  ghost predicate AllBelow<T>(s: seq<T>, key: T -> nat, bound: nat)
  {
    forall i :: 0 <= i < |s| ==> key(s[i]) < bound
  }

  lemma DistinctByAppend<T, K>(s: seq<T>, x: T, key: T -> K)
    requires DistinctBy(s, key)
    requires forall i :: 0 <= i < |s| ==> key(s[i]) != key(x)
    ensures DistinctBy(s + [x], key)
  {
    var t := s + [x];
    forall i, j | 0 <= i < j < |t| ensures key(t[i]) != key(t[j]) {
      assert t[i] == s[i];
    }
  }

  lemma DistinctByUpdate<T, K>(s: seq<T>, k: nat, v: T, key: T -> K)
    requires DistinctBy(s, key) && k < |s| && key(v) == key(s[k])
    ensures DistinctBy(s[k := v], key)
  {
  }

  lemma DistinctByRemove<T, K>(s: seq<T>, k: nat, key: T -> K)
    requires DistinctBy(s, key) && k < |s|
    ensures DistinctBy(s[..k] + s[k + 1..], key)
  {
    var t := s[..k] + s[k + 1..];
    forall i, j | 0 <= i < j < |t| ensures key(t[i]) != key(t[j]) {
      var i', j' := if i < k then i else i + 1, if j < k then j else j + 1;
      assert t[i] == s[i'] && t[j] == s[j'];
    }
  }

  lemma {:induction false} DistinctByFilter<T(!new), K>(s: seq<T>, p: T -> bool, key: T -> K)
    requires DistinctBy(s, key)
    ensures DistinctBy(Filter(s, p), key)
    decreases |s|
  {
    if s != [] {
      var init, last := s[..|s| - 1], s[|s| - 1];
      assert s == init + [last];
      DistinctByFilter(init, p, key);
      FilterSnoc(init, last, p);
      if p(last) {
        var r := Filter(init, p);
        forall i | 0 <= i < |r| ensures key(r[i]) != key(last) {
          assert r[i] in init;
          var j :| 0 <= j < |init| && init[j] == r[i];
          assert s[j] == r[i] && s[|s| - 1] == last;
        }
        DistinctByAppend(r, last, key);
      }
    }
  }

  lemma AllBelowFilter<T(!new)>(s: seq<T>, p: T -> bool, key: T -> nat, bound: nat)
    requires AllBelow(s, key, bound)
    ensures AllBelow(Filter(s, p), key, bound)
  {
    var r := Filter(s, p);
    forall i | 0 <= i < |r| ensures key(r[i]) < bound {
      assert r[i] in s;
    }
  }

  lemma AllBelowRemove<T>(s: seq<T>, k: nat, key: T -> nat, bound: nat)
    requires AllBelow(s, key, bound) && k < |s|
    ensures AllBelow(s[..k] + s[k + 1..], key, bound)
  {
    var t := s[..k] + s[k + 1..];
    forall i | 0 <= i < |t| ensures key(t[i]) < bound {
      assert t[i] == s[if i < k then i else i + 1];
    }
  }
  /** Appending a row keyed by the counter's value keeps the keys distinct
      and below the advanced counter. */
  lemma AllBelowAppend<T>(s: seq<T>, x: T, key: T -> nat, bound: nat)
    requires AllBelow(s, key, bound) && key(x) == bound
    ensures AllBelow(s + [x], key, bound + 1)
    ensures forall i :: 0 <= i < |s| ==> key(s[i]) != key(x)
  {
    var t := s + [x];
    forall i | 0 <= i < |t| ensures key(t[i]) < bound + 1 {
      if i < |s| { assert t[i] == s[i]; }
    }
  }

  lemma AllBelowUpdate<T>(s: seq<T>, k: nat, v: T, key: T -> nat, bound: nat)
    requires AllBelow(s, key, bound) && k < |s| && key(v) == key(s[k])
    ensures AllBelow(s[k := v], key, bound)
  {
  }

  /** Deleting position `k` of a table with distinct keys leaves exactly the
      rows whose key differs from the deleted one. */
  lemma RemoveByKey<T, K>(s: seq<T>, k: nat, key: T -> K)
    requires DistinctBy(s, key) && k < |s|
    ensures forall x :: x in s[..k] + s[k + 1..] <==> x in s && key(x) != key(s[k])
  {
    var t := s[..k] + s[k + 1..];
    forall x ensures x in t <==> x in s && key(x) != key(s[k]) {
      if x in s && key(x) != key(s[k]) {
        var j :| 0 <= j < |s| && s[j] == x;
        assert t[if j < k then j else j - 1] == x;
      }
      if x in t {
        var j :| 0 <= j < |t| && t[j] == x;
        var j' := if j < k then j else j + 1;
        assert s[j'] == x && j' != k;
      }
    }
  }
}
