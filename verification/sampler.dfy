/** Weighted random selection without replacement (`weighted_random_choice` in
    backend/services/selector.py).

    Randomness is an explicit stream: `rng(k)` is the value in [0, 1) returned by the
    k-th call on the random source, and every function that draws takes a cursor into
    the stream and reports how far it advanced. Each pick consumes exactly one draw,
    whether it goes through `random.uniform` or the `random.randint` fallback. */
module Sampler {

  type Draws = nat -> real

  /** One pool entry: an item together with its selection weight. */
  datatype Weighted<T> = Weighted(item: T, weight: real)

  /** The result of a drawing function: what was chosen and the next unused draw. */
  datatype Picks<T> = Picks(chosen: seq<T>, cursor: nat)

  function Min(a: int, b: int): int {
    if a <= b then a else b
  }

  function Items<T>(pool: seq<Weighted<T>>): (r: seq<T>)
    ensures |r| == |pool|
    ensures forall k {:trigger r[k]} :: 0 <= k < |pool| ==> r[k] == pool[k].item
  {
    seq(|pool|, k requires 0 <= k < |pool| => pool[k].item)
  }

  function WeightsOf<T>(pool: seq<Weighted<T>>): (r: seq<real>)
    ensures |r| == |pool|
    ensures forall k {:trigger r[k]} :: 0 <= k < |pool| ==> r[k] == pool[k].weight
  {
    seq(|pool|, k requires 0 <= k < |pool| => pool[k].weight)
  }

  /** The sum of the first `n` weights, accumulated left to right as Python's `sum` and the
      `cumulative += w` loop do. */
  function Prefix(ws: seq<real>, n: nat): real
    requires n <= |ws|
  {
    if n == 0 then 0.0 else Prefix(ws, n - 1) + ws[n - 1]
  }

  /** `sum(w for _, w in remaining)`. */
  function Total(ws: seq<real>): real {
    Prefix(ws, |ws|)
  }

  /** The running sum up to and including position `i` reaches `r`. */
  predicate Reaches(ws: seq<real>, r: real, i: nat)
    requires i < |ws|
  {
    Prefix(ws, i + 1) >= r
  }

  predicate NoneReaches(ws: seq<real>, r: real) {
    forall j :: 0 <= j < |ws| ==> !Reaches(ws, r, j)
  }

  predicate IsFirstReaching(ws: seq<real>, r: real, i: nat) {
    i < |ws| && Reaches(ws, r, i) && forall j :: 0 <= j < i ==> !Reaches(ws, r, j)
  }

  /** The loop `cumulative += w; if cumulative >= r: idx = i; break`, resumed at position `k`
      with the running sum of the first `k` weights. */
  function ScanFrom(ws: seq<real>, r: real, k: nat, cumulative: real): (i: nat)
    requires 0 < |ws| && k <= |ws|
    requires cumulative == Prefix(ws, k)
    requires forall j :: 0 <= j < k ==> !Reaches(ws, r, j)
    ensures i < |ws|
    ensures IsFirstReaching(ws, r, i) || (NoneReaches(ws, r) && i == 0)
    decreases |ws| - k
  {
    if k == |ws| then 0
    else
      var c := cumulative + ws[k];
      if c >= r then k else ScanFrom(ws, r, k + 1, c)
  }

  /** The index the cumulative walk settles on: the first position whose running sum
      reaches `r`, or 0 (the initial `idx`) when none does. */
  function CumulativeIndex(ws: seq<real>, r: real): (i: nat)
    requires 0 < |ws|
    ensures i < |ws|
    ensures IsFirstReaching(ws, r, i) || (NoneReaches(ws, r) && i == 0)
  {
    ScanFrom(ws, r, 0, 0.0)
  }

  /** `u * n`, as repeated addition (keeps the solver's arithmetic linear). */
  function Times(u: real, n: nat): real {
    if n == 0 then 0.0 else Times(u, n - 1) + u
  }

  /** The number of positions `k` in `1 .. n - 1` with `k <= x`: the integer part of a
      non-negative `x`, clamped into `[0, n - 1]`. */
  function CountUpTo(x: real, k: nat, n: nat): (c: nat)
    requires 0 < k <= n
    ensures c <= n - k
    decreases n - k
  {
    if k == n || x < k as real then 0 else 1 + CountUpTo(x, k + 1, n)
  }

  /** `random.randint(0, n - 1)` (and `random._randbelow(n)`) driven by one draw `u` in [0, 1):
      the position `floor(u * n)`, clamped into range. */
  function UniformBelow(u: real, n: nat): (i: nat)
    requires 0 < n
    ensures i < n
  {
    CountUpTo(Times(u, n), 1, n)
  }

  lemma {:induction false} TimesIsProduct(u: real, n: nat)
    ensures Times(u, n) == u * n as real
  {
    if n > 0 {
      TimesIsProduct(u, n - 1);
      assert u * n as real == u * (n - 1) as real + u;
    }
  }

  lemma {:induction false} CountUpToIsFloor(x: real, k: nat, n: nat)
    requires 0 < k <= n && (k - 1) as real <= x < n as real
    ensures (k - 1 + CountUpTo(x, k, n)) as real <= x < (k + CountUpTo(x, k, n)) as real
    decreases n - k
  {
    if k < n && x >= k as real {
      CountUpToIsFloor(x, k + 1, n);
    }
  }

  lemma FractionBelow(u: real, m: real)
    requires 0.0 <= u < 1.0 && 0.0 < m
    ensures 0.0 <= u * m < m
  {
    assert m - u * m == (1.0 - u) * m;
  }

  /** For a draw in [0, 1) the uniform position is exactly `floor(u * n)`. */
  lemma UniformBelowIsFloor(u: real, n: nat)
    requires 0 < n && 0.0 <= u < 1.0
    ensures UniformBelow(u, n) as real <= u * n as real < (UniformBelow(u, n) + 1) as real
  {
    TimesIsProduct(u, n);
    FractionBelow(u, n as real);
    CountUpToIsFloor(Times(u, n), 1, n);
  }

  /** One pick: uniform over positions when the total weight is not positive, otherwise the
      cumulative walk at `r = random.uniform(0, total) = total * u`. */
  function PickIndex(ws: seq<real>, u: real): (i: nat)
    requires 0 < |ws|
    ensures i < |ws|
  {
    if Total(ws) <= 0.0 then UniformBelow(u, |ws|) else CumulativeIndex(ws, Total(ws) * u)
  }

  /** A draw no larger than the total weight is always reached by the walk. */
  lemma DrawWithinTotalIsReached(ws: seq<real>, r: real)
    requires 0 < |ws| && r <= Total(ws)
    ensures IsFirstReaching(ws, r, CumulativeIndex(ws, r))
  {
    assert Reaches(ws, r, |ws| - 1);
  }

  /** With non-negative weights, a strictly positive draw never lands on a zero-weight entry:
      such entries can only be chosen through the uniform fallback. */
  lemma PositiveDrawSkipsZeroWeights(ws: seq<real>, r: real)
    requires 0 < |ws|
    requires forall k :: 0 <= k < |ws| ==> ws[k] >= 0.0
    requires 0.0 < r <= Total(ws)
    ensures ws[CumulativeIndex(ws, r)] > 0.0
  {
    var i := CumulativeIndex(ws, r);
    DrawWithinTotalIsReached(ws, r);
    assert Prefix(ws, i + 1) == Prefix(ws, i) + ws[i];
    if i > 0 {
      assert !Reaches(ws, r, i - 1);
    }
  }

  lemma ScaledDrawBounds(total: real, u: real)
    requires total > 0.0 && 0.0 < u <= 1.0
    ensures 0.0 < total * u <= total
  {
    assert total * u <= total * 1.0;
  }

  /** With a positive total and a draw in [0, 1], the pick is the first position whose
      running sum reaches `total * u`: the walk never falls through to its fallback. */
  lemma PickIndexWalks(ws: seq<real>, u: real)
    requires 0 < |ws| && Total(ws) > 0.0 && 0.0 <= u <= 1.0
    ensures PickIndex(ws, u) < |ws|
    ensures IsFirstReaching(ws, Total(ws) * u, PickIndex(ws, u))
  {
    assert Total(ws) * u <= Total(ws) * 1.0;
    DrawWithinTotalIsReached(ws, Total(ws) * u);
  }

  /** The pick made with a positive draw and a positive total has positive weight. */
  lemma PickIndexAvoidsZeroWeights(ws: seq<real>, u: real)
    requires 0 < |ws|
    requires forall k :: 0 <= k < |ws| ==> ws[k] >= 0.0
    requires Total(ws) > 0.0 && 0.0 < u <= 1.0
    ensures ws[PickIndex(ws, u)] > 0.0
  {
    assert PickIndex(ws, u) == CumulativeIndex(ws, Total(ws) * u);
    ScaledDrawBounds(Total(ws), u);
    PositiveDrawSkipsZeroWeights(ws, Total(ws) * u);
  }

  function RemoveAt<T>(s: seq<T>, i: nat): (r: seq<T>)
    requires i < |s|
    ensures |r| == |s| - 1
    ensures multiset(r) + multiset{s[i]} == multiset(s)
    ensures forall k {:trigger r[k]} :: 0 <= k < i ==> r[k] == s[k]
    ensures forall k {:trigger r[k]} :: i <= k < |r| ==> r[k] == s[k + 1]
  {
    assert s == s[..i] + [s[i]] + s[i + 1..];
    s[..i] + s[i + 1..]
  }

  lemma ItemsRemoveAt<T>(pool: seq<Weighted<T>>, i: nat)
    requires i < |pool|
    ensures Items(RemoveAt(pool, i)) == RemoveAt(Items(pool), i)
  {
  }

  /** `weighted_random_choice(pool, count)`: nothing when the pool is empty or `count <= 0`;
      otherwise exactly `min(count, len(pool))` picks, each a pool item, no pool position
      picked twice, one draw consumed per pick. */
  function Choose<T>(pool: seq<Weighted<T>>, count: int, rng: Draws, cursor: nat): (res: Picks<T>)
    ensures |res.chosen| == if count <= 0 then 0 else Min(count, |pool|)
    ensures multiset(res.chosen) <= multiset(Items(pool))
    ensures res.cursor == cursor + |res.chosen|
    decreases |pool|
  {
    if |pool| == 0 || count <= 0 then Picks([], cursor)
    else
      var idx := PickIndex(WeightsOf(pool), rng(cursor));
      var rest := Choose(RemoveAt(pool, idx), count - 1, rng, cursor + 1);
      ItemsRemoveAt(pool, idx);
      Picks([pool[idx].item] + rest.chosen, rest.cursor)
  }

  /** No two elements share a key. */
  ghost predicate DistinctBy<T, K>(s: seq<T>, key: T -> K) {
    forall i, j {:trigger key(s[i]), key(s[j])} :: 0 <= i < j < |s| ==> key(s[i]) != key(s[j])
  }

  ghost function KeySet<T, K>(s: seq<T>, key: T -> K): set<K> {
    set i | 0 <= i < |s| :: key(s[i])
  }

  lemma DistinctCons<T, K>(x: T, t: seq<T>, key: T -> K)
    requires DistinctBy(t, key) && key(x) !in KeySet(t, key)
    ensures DistinctBy([x] + t, key)
    ensures KeySet([x] + t, key) == {key(x)} + KeySet(t, key)
  {
    var s := [x] + t;
    forall i, j | 0 <= i < j < |s| ensures key(s[i]) != key(s[j]) {
      assert s[j] == t[j - 1];
      if i > 0 {
        assert s[i] == t[i - 1];
      }
    }
    forall k | 0 <= k < |t| ensures key(t[k]) in KeySet(s, key) {
      assert t[k] == s[k + 1];
    }
    forall k | 0 <= k < |s| ensures key(s[k]) in {key(x)} + KeySet(t, key) {
      if k > 0 {
        assert s[k] == t[k - 1];
      }
    }
    assert key(s[0]) in KeySet(s, key);
  }

  lemma DistinctTail<T, K>(s: seq<T>, key: T -> K)
    requires |s| > 0 && DistinctBy(s, key)
    ensures DistinctBy(s[1..], key) && key(s[0]) !in KeySet(s[1..], key)
    ensures s == [s[0]] + s[1..]
  {
    var t := s[1..];
    forall i, j | 0 <= i < j < |t| ensures key(t[i]) != key(t[j]) {
      assert t[i] == s[i + 1] && t[j] == s[j + 1];
    }
    forall j | 0 <= j < |t| ensures key(t[j]) != key(s[0]) {
      assert t[j] == s[j + 1];
    }
  }

  lemma {:induction false} DistinctKeySetSize<T, K>(s: seq<T>, key: T -> K)
    requires DistinctBy(s, key)
    ensures |KeySet(s, key)| == |s|
  {
    if |s| > 0 {
      DistinctTail(s, key);
      DistinctKeySetSize(s[1..], key);
      DistinctCons(s[0], s[1..], key);
    }
  }

  /** Removing one position keeps keys distinct, loses exactly the removed key, and adds none. */
  lemma DistinctRemoveAt<T, K>(s: seq<T>, i: nat, key: T -> K)
    requires i < |s| && DistinctBy(s, key)
    ensures DistinctBy(RemoveAt(s, i), key)
    ensures KeySet(RemoveAt(s, i), key) == KeySet(s, key) - {key(s[i])}
  {
    var r := RemoveAt(s, i);
    forall a, b | 0 <= a < b < |r| ensures key(r[a]) != key(r[b]) {
      var a' := if a < i then a else a + 1;
      var b' := if b < i then b else b + 1;
      assert r[a] == s[a'] && r[b] == s[b'];
    }
    forall k | 0 <= k < |r| ensures key(r[k]) in KeySet(s, key) - {key(s[i])} {
      var k' := if k < i then k else k + 1;
      assert r[k] == s[k'];
    }
    forall k | 0 <= k < |s| && k != i ensures key(s[k]) in KeySet(r, key) {
      var k' := if k < i then k else k - 1;
      assert r[k'] == s[k];
    }
  }

  /** A sub-multiset has no keys its super-multiset lacks. */
  lemma SubMultisetKeys<T, K>(a: seq<T>, b: seq<T>, key: T -> K)
    requires multiset(a) <= multiset(b)
    ensures KeySet(a, key) <= KeySet(b, key)
  {
    forall i | 0 <= i < |a| ensures key(a[i]) in KeySet(b, key) {
      assert a[i] in multiset(a);
      var j :| 0 <= j < |b| && b[j] == a[i];
    }
  }

  /** Taking a sub-multiset of a sequence with distinct keys keeps the keys distinct. */
  lemma {:induction false} SubMultisetDistinct<T, K>(a: seq<T>, b: seq<T>, key: T -> K)
    requires multiset(a) <= multiset(b) && DistinctBy(b, key)
    ensures DistinctBy(a, key)
    decreases |a|
  {
    if |a| > 0 {
      var x := a[0];
      assert a == [x] + a[1..];
      assert x in multiset(b);
      var p :| 0 <= p < |b| && b[p] == x;
      var b' := RemoveAt(b, p);
      assert multiset(a[1..]) + multiset{x} == multiset(a);
      forall y ensures multiset(a[1..])[y] <= multiset(b')[y] {
        assert multiset(a[1..])[y] + multiset{x}[y] == multiset(a)[y];
        assert multiset(b')[y] + multiset{x}[y] == multiset(b)[y];
      }
      DistinctRemoveAt(b, p, key);
      SubMultisetDistinct(a[1..], b', key);
      SubMultisetKeys(a[1..], b', key);
      DistinctCons(x, a[1..], key);
    }
  }

  /** Drawing from a pool whose keys are distinct yields distinct keys, all of them keys
      of the pool. */
  lemma ChooseDistinct<T, K>(pool: seq<Weighted<T>>, count: int, rng: Draws, cursor: nat, key: T -> K)
    requires DistinctBy(Items(pool), key)
    ensures DistinctBy(Choose(pool, count, rng, cursor).chosen, key)
    ensures KeySet(Choose(pool, count, rng, cursor).chosen, key) <= KeySet(Items(pool), key)
  {
    var c := Choose(pool, count, rng, cursor).chosen;
    SubMultisetDistinct(c, Items(pool), key);
    SubMultisetKeys(c, Items(pool), key);
  }

  /** Concatenating two key-distinct sequences that share no key keeps keys distinct. */
  lemma DistinctConcat<T, K>(a: seq<T>, b: seq<T>, key: T -> K)
    requires DistinctBy(a, key) && DistinctBy(b, key)
    requires forall i, j :: 0 <= i < |a| && 0 <= j < |b| ==> key(a[i]) != key(b[j])
    ensures DistinctBy(a + b, key)
  {
    var c := a + b;
    forall i, j | 0 <= i < j < |c| ensures key(c[i]) != key(c[j]) {
      if j < |a| {
        assert c[i] == a[i] && c[j] == a[j];
      } else if i >= |a| {
        assert c[i] == b[i - |a|] && c[j] == b[j - |a|];
      } else {
        assert c[i] == a[i] && c[j] == b[j - |a|];
      }
    }
  }

  lemma DistinctPrefix<T, K>(a: seq<T>, b: seq<T>, key: T -> K)
    requires DistinctBy(a + b, key)
    ensures DistinctBy(a, key) && DistinctBy(b, key)
    ensures KeySet(a, key) !! KeySet(b, key)
  {
    var c := a + b;
    forall i, j | 0 <= i < j < |a| ensures key(a[i]) != key(a[j]) {
      assert a[i] == c[i] && a[j] == c[j];
    }
    forall i, j | 0 <= i < j < |b| ensures key(b[i]) != key(b[j]) {
      assert b[i] == c[|a| + i] && b[j] == c[|a| + j];
    }
    forall x | x in KeySet(a, key) ensures x !in KeySet(b, key) {
      var i :| 0 <= i < |a| && key(a[i]) == x;
      forall j | 0 <= j < |b| ensures key(b[j]) != x {
        assert a[i] == c[i] && b[j] == c[|a| + j];
      }
    }
  }

  /** Keys of a concatenation. */
  lemma KeySetConcat<T, K>(a: seq<T>, b: seq<T>, key: T -> K)
    ensures KeySet(a + b, key) == KeySet(a, key) + KeySet(b, key)
  {
    var c := a + b;
    forall x | x in KeySet(c, key) ensures x in KeySet(a, key) + KeySet(b, key) {
      var i :| 0 <= i < |c| && key(c[i]) == x;
      if i < |a| {
        assert c[i] == a[i];
      } else {
        assert c[i] == b[i - |a|];
      }
    }
    forall i | 0 <= i < |a| ensures key(a[i]) in KeySet(c, key) {
      assert c[i] == a[i];
    }
    forall i | 0 <= i < |b| ensures key(b[i]) in KeySet(c, key) {
      assert c[|a| + i] == b[i];
    }
  }

  /** Keys on both sides differ, stated on key sets. */
  lemma DistinctConcatSets<T, K>(a: seq<T>, b: seq<T>, key: T -> K)
    requires DistinctBy(a, key) && DistinctBy(b, key) && KeySet(a, key) !! KeySet(b, key)
    ensures DistinctBy(a + b, key)
  {
    forall i, j | 0 <= i < |a| && 0 <= j < |b| ensures key(a[i]) != key(b[j]) {
      assert key(a[i]) in KeySet(a, key);
      assert key(b[j]) in KeySet(b, key);
    }
    DistinctConcat(a, b, key);
  }

  /** `random.shuffle`: for `i` from the last position down to 1, swap position `i` with a
      uniform position `j <= i`, one draw per swap. */
  function Shuffle<T>(xs: seq<T>, rng: Draws, cursor: nat): (r: Picks<T>)
    ensures |r.chosen| == |xs|
    ensures multiset(r.chosen) == multiset(xs)
    ensures r.cursor == cursor + (if |xs| == 0 then 0 else |xs| - 1)
  {
    if |xs| == 0 then Picks(xs, cursor) else ShuffleDown(xs, |xs| - 1, rng, cursor)
  }

  /** The swaps for positions `i`, `i - 1`, ..., 1. */
  function ShuffleDown<T>(xs: seq<T>, i: nat, rng: Draws, cursor: nat): (r: Picks<T>)
    requires i < |xs|
    ensures |r.chosen| == |xs|
    ensures multiset(r.chosen) == multiset(xs)
    ensures r.cursor == cursor + i
    decreases i
  {
    if i == 0 then Picks(xs, cursor)
    else
      var j := UniformBelow(rng(cursor), i + 1);
      ShuffleDown(Swap(xs, i, j), i - 1, rng, cursor + 1)
  }

  function Swap<T>(xs: seq<T>, i: nat, j: nat): (r: seq<T>)
    requires i < |xs| && j < |xs|
    ensures |r| == |xs| && multiset(r) == multiset(xs)
    ensures r[i] == xs[j] && r[j] == xs[i]
    ensures forall k :: 0 <= k < |xs| && k != i && k != j ==> r[k] == xs[k]
  {
    xs[i := xs[j]][j := xs[i]]
  }

  /** Shuffling keeps a sequence's keys, and keeps them distinct. */
  lemma ShuffleKeys<T, K>(xs: seq<T>, rng: Draws, cursor: nat, key: T -> K)
    ensures KeySet(Shuffle(xs, rng, cursor).chosen, key) == KeySet(xs, key)
    ensures DistinctBy(xs, key) ==> DistinctBy(Shuffle(xs, rng, cursor).chosen, key)
  {
    var r := Shuffle(xs, rng, cursor).chosen;
    SubMultisetKeys(r, xs, key);
    SubMultisetKeys(xs, r, key);
    if DistinctBy(xs, key) {
      SubMultisetDistinct(r, xs, key);
    }
  }

  /** Two items: the single swap exchanges them exactly when the draw falls in the lower
      half, since `randbelow(2)` is then 0. */
  lemma ShuffleTwo<T>(a: T, b: T, rng: Draws, cursor: nat)
    requires 0.0 <= rng(cursor) < 1.0
    ensures Shuffle([a, b], rng, cursor).chosen == if rng(cursor) < 0.5 then [b, a] else [a, b]
  {
    var u := rng(cursor);
    UniformBelowIsFloor(u, 2);
    var j := UniformBelow(u, 2);
    assert Shuffle([a, b], rng, cursor) == ShuffleDown(Swap([a, b], 1, j), 0, rng, cursor + 1);
  }
}
