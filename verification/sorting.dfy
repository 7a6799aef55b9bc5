/** Sequence filters, the maximum of a list, and the stable sort behind Python's `list.sort(key=...)`. */
module Sorting {
  import opened Wrappers

  /** The elements of `xs` that satisfy `p`, in their original order: `[x for x in xs if p(x)]`. */
  function Filter<T>(xs: seq<T>, p: T -> bool): (r: seq<T>)
    ensures |r| <= |xs|
    ensures forall k :: 0 <= k < |r| ==> p(r[k])
    ensures multiset(r) <= multiset(xs)
  {
    if |xs| == 0 then []
    else
      assert xs == [xs[0]] + xs[1..];
      (if p(xs[0]) then [xs[0]] else []) + Filter(xs[1..], p)
  }

  /** Filtering keeps exactly the elements that satisfy the test. */
  lemma {:induction false} FilterMembers<T>(xs: seq<T>, p: T -> bool, x: T)
    ensures x in Filter(xs, p) <==> x in xs && p(x)
  {
    if |xs| > 0 {
      FilterMembers(xs[1..], p, x);
      assert xs == [xs[0]] + xs[1..];
    }
  }

  /** Filtering a concatenation filters each part. */
  lemma {:induction false} FilterConcat<T>(a: seq<T>, b: seq<T>, p: T -> bool)
    ensures Filter(a + b, p) == Filter(a, p) + Filter(b, p)
  {
    if |a| > 0 {
      assert (a + b)[1..] == a[1..] + b;
      FilterConcat(a[1..], b, p);
    } else {
      assert a + b == b;
    }
  }

  /** Filtering one element at the end of a sequence, the step of a counting loop. */
  lemma FilterSnoc<T>(xs: seq<T>, x: T, p: T -> bool)
    ensures Filter(xs + [x], p) == Filter(xs, p) + (if p(x) then [x] else [])
  {
    FilterConcat(xs, [x], p);
  }

  /** Python's `max` over a possibly empty list, `None` standing for "no value". */
  function MaxOf(xs: seq<int>): (m: Option<int>)
    ensures m.None? <==> |xs| == 0
    ensures m.Some? ==> m.value in xs && forall k :: 0 <= k < |xs| ==> xs[k] <= m.value
  {
    if |xs| == 0 then None
    else
      var rest := MaxOf(xs[1..]);
      assert forall k :: 1 <= k < |xs| ==> xs[k] == xs[1..][k - 1];
      if rest.None? || xs[0] >= rest.value then Some(xs[0]) else rest
  }

  /** Ascending by `key`: `xs[i]` never has a larger key than a later element. */
  predicate SortedBy<T>(xs: seq<T>, key: T -> int) {
    forall i, j :: 0 <= i < j < |xs| ==> key(xs[i]) <= key(xs[j])
  }

  /** The elements whose key is `k`, in order. */
  function WithKey<T>(xs: seq<T>, key: T -> int, k: int): seq<T> {
    if |xs| == 0 then []
    else (if key(xs[0]) == k then [xs[0]] else []) + WithKey(xs[1..], key, k)
  }

  /** `x` goes in front of the first element whose key is not smaller than its own, so it
      precedes every element with an equal key. */
  function InsertBy<T>(x: T, xs: seq<T>, key: T -> int): (r: seq<T>)
    ensures |r| == |xs| + 1
    ensures multiset(r) == multiset(xs) + multiset{x}
  {
    if |xs| == 0 || key(x) <= key(xs[0]) then [x] + xs
    else
      assert xs == [xs[0]] + xs[1..];
      [xs[0]] + InsertBy(x, xs[1..], key)
  }

  /** `sorted(xs, key=key)`: insertion sort from the back, which is stable. */
  function SortBy<T>(xs: seq<T>, key: T -> int): (r: seq<T>)
    ensures |r| == |xs|
    ensures multiset(r) == multiset(xs)
  {
    if |xs| == 0 then []
    else
      assert xs == [xs[0]] + xs[1..];
      InsertBy(xs[0], SortBy(xs[1..], key), key)
  }

  /** Insertion adds no key below a bound that `x` and all of `xs` respect. */
  lemma {:induction false} InsertByBound<T>(x: T, xs: seq<T>, key: T -> int, lo: int)
    requires lo <= key(x) && forall k :: 0 <= k < |xs| ==> lo <= key(xs[k])
    ensures forall k :: 0 <= k < |InsertBy(x, xs, key)| ==> lo <= key(InsertBy(x, xs, key)[k])
  {
    if |xs| > 0 && key(x) > key(xs[0]) {
      InsertByBound(x, xs[1..], key, lo);
      assert InsertBy(x, xs, key) == [xs[0]] + InsertBy(x, xs[1..], key);
    }
  }

  /** Inserting into a sorted sequence keeps it sorted. */
  lemma {:induction false} InsertBySorted<T>(x: T, xs: seq<T>, key: T -> int)
    requires SortedBy(xs, key)
    ensures SortedBy(InsertBy(x, xs, key), key)
  {
    if |xs| > 0 && key(x) > key(xs[0]) {
      InsertBySorted(x, xs[1..], key);
      InsertByBound(x, xs[1..], key, key(xs[0]));
      var r := InsertBy(x, xs, key);
      var t := InsertBy(x, xs[1..], key);
      assert r == [xs[0]] + t;
      forall i, j | 0 <= i < j < |r| ensures key(r[i]) <= key(r[j]) {
        assert r[j] == t[j - 1];
        if i > 0 {
          assert r[i] == t[i - 1];
        }
      }
    }
  }

  /** Insertion puts `x` ahead of the elements with its key and leaves the others' order. */
  lemma {:induction false} InsertByWithKey<T>(x: T, xs: seq<T>, key: T -> int, k: int)
    requires SortedBy(xs, key)
    ensures WithKey(InsertBy(x, xs, key), key, k)
         == (if key(x) == k then [x] else []) + WithKey(xs, key, k)
  {
    if |xs| == 0 || key(x) <= key(xs[0]) {
      assert ([x] + xs)[1..] == xs;
    } else {
      var t := InsertBy(x, xs[1..], key);
      InsertByWithKey(x, xs[1..], key, k);
      assert ([xs[0]] + t)[1..] == t;
      if key(x) == k {
        assert key(xs[0]) != k;
      }
    }
  }

  /** The sort orders by key. */
  lemma {:induction false} SortBySorted<T>(xs: seq<T>, key: T -> int)
    ensures SortedBy(SortBy(xs, key), key)
  {
    if |xs| > 0 {
      SortBySorted(xs[1..], key);
      InsertBySorted(xs[0], SortBy(xs[1..], key), key);
    }
  }

  /** The sort is stable: the elements sharing any one key keep their input order. */
  lemma {:induction false} SortByStable<T>(xs: seq<T>, key: T -> int, k: int)
    ensures WithKey(SortBy(xs, key), key, k) == WithKey(xs, key, k)
  {
    if |xs| > 0 {
      SortByStable(xs[1..], key, k);
      SortBySorted(xs[1..], key);
      InsertByWithKey(xs[0], SortBy(xs[1..], key), key, k);
    }
  }

  /** Sorting a sequence that is already in order changes nothing. */
  lemma {:induction false} SortBySortedInput<T>(xs: seq<T>, key: T -> int)
    requires SortedBy(xs, key)
    ensures SortBy(xs, key) == xs
  {
    if |xs| > 0 {
      SortBySortedInput(xs[1..], key);
      var t := xs[1..];
      assert SortBy(xs, key) == InsertBy(xs[0], t, key);
      if |t| > 0 {
        assert key(xs[0]) <= key(t[0]);
      }
      assert xs == [xs[0]] + t;
    }
  }
}
