/**
 * Sequence operations behind the store's `filter`, `order_by`, `distinct` and
 * slicing: an order-preserving filter, a stable insertion sort under a total
 * preorder, order-preserving de-duplication (Python's `dict.fromkeys`) and a
 * prefix of at most n items.
 */
module Sorting {

  /** The elements of `s` that satisfy `p`, in their original order. */
  function Filter<T(==)>(p: T -> bool, s: seq<T>): (r: seq<T>)
    ensures |r| <= |s|
    ensures forall i :: 0 <= i < |r| ==> p(r[i])
  {
    if s == [] then []
    else (if p(s[0]) then [s[0]] else []) + Filter(p, s[1..])
  }

  /** The filter keeps exactly the elements that satisfy `p`. */
  lemma {:induction false} FilterMembers<T>(p: T -> bool, s: seq<T>)
    ensures forall i :: 0 <= i < |Filter(p, s)| ==> Filter(p, s)[i] in s
    ensures forall i :: 0 <= i < |s| && p(s[i]) ==> s[i] in Filter(p, s)
  {
    if s != [] {
      var r := Filter(p, s);
      var head := if p(s[0]) then [s[0]] else [];
      var rest := Filter(p, s[1..]);
      FilterMembers(p, s[1..]);
      assert r == head + rest;
      forall i | 0 <= i < |r| ensures r[i] in s {
        if i >= |head| {
          assert r[i] == rest[i - |head|];
          var k :| 0 <= k < |s[1..]| && s[1..][k] == rest[i - |head|];
          assert s[k + 1] == r[i];
        }
      }
      forall i | 0 <= i < |s| && p(s[i]) ensures s[i] in r {
        if i == 0 {
          assert r[0] == s[0];
        } else {
          assert s[i] == s[1..][i - 1];
          assert s[i] in rest;
        }
      }
    }
  }

  lemma {:induction false} FilterAppend<T>(p: T -> bool, a: seq<T>, b: seq<T>)
    ensures Filter(p, a + b) == Filter(p, a) + Filter(p, b)
  {
    if a == [] {
      assert a + b == b;
    } else {
      assert (a + b)[0] == a[0];
      assert (a + b)[1..] == a[1..] + b;
      FilterAppend(p, a[1..], b);
    }
  }

  /** Filters by predicates that agree on `s` give the same result. */
  lemma {:induction false} FilterCongruent<T>(p: T -> bool, q: T -> bool, s: seq<T>)
    requires forall i :: 0 <= i < |s| ==> p(s[i]) == q(s[i])
    ensures Filter(p, s) == Filter(q, s)
  {
    if s != [] {
      FilterCongruent(p, q, s[1..]);
    }
  }

  ghost predicate IsTotalPreorder<T(!new)>(le: (T, T) -> bool) {
    (forall a, b :: le(a, b) || le(b, a)) &&
    (forall a, b, c :: le(a, b) && le(b, c) ==> le(a, c))
  }

  predicate SortedBy<T>(s: seq<T>, le: (T, T) -> bool) {
    forall i, j :: 0 <= i < j < |s| ==> le(s[i], s[j])
  }

  /** Inserts `x` before the first element it is `le` to. */
  function Insert<T>(x: T, s: seq<T>, le: (T, T) -> bool): (r: seq<T>)
    ensures multiset(r) == multiset(s) + multiset{x}
    ensures |r| == |s| + 1
  {
    if s == [] then [x]
    else if le(x, s[0]) then [x] + s
    else
      assert s == [s[0]] + s[1..];
      [s[0]] + Insert(x, s[1..], le)
  }

  function Sort<T>(s: seq<T>, le: (T, T) -> bool): (r: seq<T>)
    ensures multiset(r) == multiset(s)
    ensures |r| == |s|
  {
    if s == [] then []
    else
      assert s == [s[0]] + s[1..];
      Insert(s[0], Sort(s[1..], le), le)
  }

  lemma {:induction false} InsertSorted<T(!new)>(x: T, s: seq<T>, le: (T, T) -> bool)
    requires IsTotalPreorder(le) && SortedBy(s, le)
    ensures SortedBy(Insert(x, s, le), le)
  {
    if s != [] && !le(x, s[0]) {
      var tail := Insert(x, s[1..], le);
      InsertSorted(x, s[1..], le);
      forall k | 0 <= k < |tail| ensures le(s[0], tail[k]) {
        assert tail[k] in multiset(tail);
        if tail[k] != x {
          assert tail[k] in multiset(s[1..]);
          var j :| 0 <= j < |s[1..]| && s[1..][j] == tail[k];
          assert s[j + 1] == tail[k];
        }
      }
    }
  }

  lemma {:induction false} SortSorted<T(!new)>(s: seq<T>, le: (T, T) -> bool)
    requires IsTotalPreorder(le)
    ensures SortedBy(Sort(s, le), le)
  {
    if s != [] {
      SortSorted(s[1..], le);
      InsertSorted(s[0], Sort(s[1..], le), le);
    }
  }

  function Take<T>(n: nat, s: seq<T>): (r: seq<T>)
    ensures |r| == if n < |s| then n else |s|
    ensures r == s[..|r|]
  {
    if n < |s| then s[..n] else s
  }

  /** The first `n` elements are drawn from the sequence, each no more often than it occurs. */
  lemma TakeSubMultiset<T>(n: nat, s: seq<T>)
    ensures multiset(Take(n, s)) <= multiset(s)
  {
    var r := Take(n, s);
    assert s == r + s[|r|..];
  }

  /**
   * An element of a sorted sequence that its first `n` leave out sits after
   * all of them, and is left out only when `n` were taken.
   */
  lemma TakeSortedLeavesLater<T>(n: nat, s: seq<T>, le: (T, T) -> bool)
    requires SortedBy(s, le)
    ensures forall x :: x in s && x !in Take(n, s) ==>
      |Take(n, s)| == n && forall i :: 0 <= i < |Take(n, s)| ==> le(Take(n, s)[i], x) && Take(n, s)[i] != x
  {
    var r := Take(n, s);
    forall x | x in s && x !in r
      ensures |r| == n && forall i :: 0 <= i < |r| ==> le(r[i], x) && r[i] != x
    {
      var k :| 0 <= k < |s| && s[k] == x;
      assert k >= |r|;
    }
  }

  predicate NoDuplicates<T(==)>(s: seq<T>) {
    forall i, j :: 0 <= i < j < |s| ==> s[i] != s[j]
  }

  /** Index of the first occurrence of `x` in `s`. */
  function FirstIndex<T(==)>(s: seq<T>, x: T): (k: nat)
    requires x in s
    ensures k < |s| && s[k] == x
    ensures forall i :: 0 <= i < k ==> s[i] != x
  {
    if s[0] == x then 0 else 1 + FirstIndex(s[1..], x)
  }

  /**
   * The distinct elements of `s` in order of first occurrence, as
   * `list(dict.fromkeys(s))` produces them.
   */
  function Dedupe<T(==)>(s: seq<T>): (r: seq<T>)
    ensures |r| <= |s|
    ensures NoDuplicates(r)
  {
    if s == [] then []
    else
      var init := s[..|s| - 1];
      var last := s[|s| - 1];
      var prev := Dedupe(init);
      if last in prev then prev else prev + [last]
  }

  /** De-duplication keeps every value and adds none. */
  lemma {:induction false} DedupeMembers<T>(s: seq<T>)
    ensures forall i :: 0 <= i < |Dedupe(s)| ==> Dedupe(s)[i] in s
    ensures forall i :: 0 <= i < |s| ==> s[i] in Dedupe(s)
  {
    if s != [] {
      var init := s[..|s| - 1];
      var last := s[|s| - 1];
      var prev := Dedupe(init);
      var r := Dedupe(s);
      DedupeMembers(init);
      assert r == if last in prev then prev else prev + [last];
      forall i | 0 <= i < |r| ensures r[i] in s {
        if i < |prev| {
          assert r[i] == prev[i];
          var k :| 0 <= k < |init| && init[k] == prev[i];
          assert s[k] == init[k];
        } else {
          assert r[i] == s[|s| - 1];
        }
      }
      forall i | 0 <= i < |s| ensures s[i] in r {
        if i < |init| {
          assert s[i] == init[i];
          assert init[i] in prev;
        }
      }
    }
  }

  /** In order of first occurrence in `s`. */
  predicate FirstOccurrenceOrdered<T(==)>(r: seq<T>, s: seq<T>)
    requires forall i :: 0 <= i < |r| ==> r[i] in s
  {
    forall i, j :: 0 <= i < j < |r| ==> FirstIndex(s, r[i]) < FirstIndex(s, r[j])
  }

  lemma OrderedAfterSnoc<T>(r: seq<T>, init: seq<T>, last: T)
    requires forall i :: 0 <= i < |r| ==> r[i] in init
    requires FirstOccurrenceOrdered(r, init)
    ensures forall i :: 0 <= i < |r| ==> r[i] in init + [last]
    ensures FirstOccurrenceOrdered(r, init + [last])
  {
    forall x | x in init ensures FirstIndex(init + [last], x) == FirstIndex(init, x) {
      FirstIndexPrefix(init, [last], x);
    }
  }

  lemma OrderedAfterNew<T>(r: seq<T>, init: seq<T>, last: T)
    requires forall i :: 0 <= i < |r| ==> r[i] in init
    requires FirstOccurrenceOrdered(r, init) && last !in init
    ensures forall i :: 0 <= i < |r| + 1 ==> (r + [last])[i] in init + [last]
    ensures FirstOccurrenceOrdered(r + [last], init + [last])
  {
    var s := init + [last];
    OrderedAfterSnoc(r, init, last);
    assert FirstIndex(s, last) == |init|;
    forall i | 0 <= i < |r| ensures FirstIndex(s, r[i]) < |init| {
      FirstIndexPrefix(init, [last], r[i]);
    }
  }

  /** Kept elements appear in the order of their first occurrence in `s`. */
  lemma {:induction false} DedupeFirstOccurrenceOrder<T>(s: seq<T>)
    ensures forall i :: 0 <= i < |Dedupe(s)| ==> Dedupe(s)[i] in s
    ensures FirstOccurrenceOrdered(Dedupe(s), s)
  {
    DedupeMembers(s);
    if s != [] {
      var init := s[..|s| - 1];
      var last := s[|s| - 1];
      var prev := Dedupe(init);
      assert s == init + [last];
      DedupeFirstOccurrenceOrder(init);
      DedupeSnoc(init, last);
      if last in prev {
        OrderedAfterSnoc(prev, init, last);
      } else {
        assert last !in init by {
          DedupeMembers(init);
          forall i | 0 <= i < |init| ensures init[i] != last {
            assert init[i] in prev;
          }
        }
        OrderedAfterNew(prev, init, last);
      }
    }
  }

  lemma {:induction false} FirstIndexPrefix<T>(a: seq<T>, b: seq<T>, x: T)
    requires x in a
    ensures x in a + b && FirstIndex(a + b, x) == FirstIndex(a, x)
  {
    if a[0] != x {
      assert (a + b)[1..] == a[1..] + b;
      FirstIndexPrefix(a[1..], b, x);
    }
  }

  /** Filtering a sorted sequence leaves it sorted. */
  lemma {:induction false} FilterSorted<T>(p: T -> bool, s: seq<T>, le: (T, T) -> bool)
    requires SortedBy(s, le)
    ensures SortedBy(Filter(p, s), le)
  {
    if s != [] {
      var rest := Filter(p, s[1..]);
      FilterSorted(p, s[1..], le);
      FilterMembers(p, s[1..]);
      assert forall k :: 0 <= k < |rest| ==> le(s[0], rest[k]) by {
        forall k | 0 <= k < |rest| ensures le(s[0], rest[k]) {
          var j :| 0 <= j < |s[1..]| && s[1..][j] == rest[k];
          assert s[j + 1] == rest[k];
        }
      }
    }
  }

  lemma {:induction false} NoDuplicatesCount<T>(s: seq<T>, x: T)
    requires NoDuplicates(s)
    ensures multiset(s)[x] <= 1
  {
    if s != [] {
      assert s == [s[0]] + s[1..];
      assert NoDuplicates(s[1..]);
      NoDuplicatesCount(s[1..], x);
      if x == s[0] {
        assert x !in s[1..];
      }
    }
  }

  lemma RepeatedCount<T>(s: seq<T>, i: nat, j: nat)
    requires i < j < |s| && s[i] == s[j]
    ensures multiset(s)[s[i]] >= 2
  {
    assert s == s[..j] + s[j..];
    assert s[i] in s[..j];
    assert s[j] in s[j..];
  }

  /** A rearrangement of a sequence without duplicates has none either. */
  lemma PermutationNoDuplicates<T>(a: seq<T>, b: seq<T>)
    requires multiset(a) == multiset(b) && NoDuplicates(a)
    ensures NoDuplicates(b)
  {
    forall i, j | 0 <= i < j < |b| ensures b[i] != b[j] {
      if b[i] == b[j] {
        RepeatedCount(b, i, j);
        NoDuplicatesCount(a, b[i]);
      }
    }
  }

  lemma DedupeSnoc<T>(s: seq<T>, x: T)
    ensures Dedupe(s + [x]) == if x in Dedupe(s) then Dedupe(s) else Dedupe(s) + [x]
  {
    var t := s + [x];
    assert t[..|t| - 1] == s;
    assert t[|t| - 1] == x;
  }

  lemma {:induction false} DedupeOfDistinct<T>(s: seq<T>)
    requires NoDuplicates(s)
    ensures Dedupe(s) == s
  {
    if s != [] {
      var init := s[..|s| - 1];
      var last := s[|s| - 1];
      assert NoDuplicates(init);
      DedupeOfDistinct(init);
      assert last !in init;
      assert s == init + [last];
      DedupeSnoc(init, last);
    }
  }

  /** De-duplicating `a + b` keeps a duplicate-free `a` in front. */
  lemma {:induction false} DedupeKeepsPrefix<T>(a: seq<T>, b: seq<T>)
    requires NoDuplicates(a)
    ensures |Dedupe(a + b)| >= |a| && Dedupe(a + b)[..|a|] == a
  {
    if b == [] {
      assert a + b == a;
      DedupeOfDistinct(a);
    } else {
      var init := b[..|b| - 1];
      var last := b[|b| - 1];
      var prev := Dedupe(a + init);
      DedupeKeepsPrefix(a, init);
      assert Dedupe(a + b) == prev || Dedupe(a + b) == prev + [last] by {
        assert a + b == (a + init) + [last];
        DedupeSnoc(a + init, last);
      }
      assert (prev + [last])[..|a|] == prev[..|a|];
    }
  }
}
