/** The practice-set generator (`generate_practice_set` in backend/services/selector.py).

    The configuration is the stored `selection_algorithm` setting, or none; the catalog,
    the practice statistics and the random stream are inputs. Every random call reads one
    draw from `rng`, in program order: the picks of the sampling phases, then the swaps of
    the final shuffle, then one draw per item for its articulation. */
module Generator {
  import opened Wrappers
  import opened Models
  import opened Weighting
  import opened Sampler
  import opened Pools

  /** The configuration values the generator reads, after its own defaults. */
  datatype Settings = Settings(
    totalItems: int,
    octaveVariety: bool,
    weighting: WeightParams,
    scaleBpm: int,
    arpeggioBpm: int,
    focus: Focus,
    probability: real,
    slurredPercent: real
  )

  /** `get_algorithm_config`: the stored setting, or the default configuration. */
  function ConfigOf(stored: Option<AlgorithmConfig>): AlgorithmConfig {
    stored.GetOr(DefaultConfig())
  }

  /** Reading the configuration with the generator's own fallbacks: a stored value is used
      when present; a missing or non-positive item count becomes 5; octave variety defaults
      to on; the bpm defaults are 60 and 72; weekly focus defaults to off, with no keys or
      types and an 80 percent probability; the slurred share defaults to 50 percent. */
  function ResolveSettings(c: AlgorithmConfig): (s: Settings)
    ensures s.totalItems > 0
    ensures c.totalItems.Some? && c.totalItems.value > 0 ==> s.totalItems == c.totalItems.value
    ensures c.totalItems.None? || c.totalItems.value <= 0 ==> s.totalItems == 5
    ensures c.octaveVariety.Some? ==> s.octaveVariety == c.octaveVariety.value
    ensures c.octaveVariety.None? ==> s.octaveVariety
    ensures s.weighting == ResolveWeighting(c.weighting)
    ensures c.defaultScaleBpm.Some? ==> s.scaleBpm == c.defaultScaleBpm.value
    ensures c.defaultScaleBpm.None? ==> s.scaleBpm == 60
    ensures c.defaultArpeggioBpm.Some? ==> s.arpeggioBpm == c.defaultArpeggioBpm.value
    ensures c.defaultArpeggioBpm.None? ==> s.arpeggioBpm == 72
    ensures c.weeklyFocus.None? ==> s.focus == Focus(false, [], []) && s.probability == 80.0
    ensures c.weeklyFocus.Some? ==>
              var wf := c.weeklyFocus.value;
              (s.focus.enabled <==> wf.enabled == Some(true)) &&
              (wf.keys.Some? ==> s.focus.keys == wf.keys.value) &&
              (wf.keys.None? ==> s.focus.keys == []) &&
              (wf.types.Some? ==> s.focus.types == wf.types.value) &&
              (wf.types.None? ==> s.focus.types == []) &&
              (wf.probabilityIncrease.Some? ==> s.probability == wf.probabilityIncrease.value) &&
              (wf.probabilityIncrease.None? ==> s.probability == 80.0)
    ensures c.slurredPercent.Some? ==> s.slurredPercent == c.slurredPercent.value
    ensures c.slurredPercent.None? ==> s.slurredPercent == 50.0
  {
    var total := c.totalItems.GetOr(5);
    var wf := c.weeklyFocus.GetOr(WeeklyFocusSettings(None, None, None, None, None));
    Settings(
      totalItems := if total <= 0 then 5 else total,
      octaveVariety := c.octaveVariety.GetOr(true),
      weighting := ResolveWeighting(c.weighting),
      scaleBpm := c.defaultScaleBpm.GetOr(60),
      arpeggioBpm := c.defaultArpeggioBpm.GetOr(72),
      focus := Focus(wf.enabled.GetOr(false), wf.keys.GetOr([]), wf.types.GetOr([])),
      probability := wf.probabilityIncrease.GetOr(80.0),
      slurredPercent := c.slurredPercent.GetOr(50.0)
    )
  }

  /** The stored configuration that spells out every value of `s`. */
  function StoredFor(s: Settings): AlgorithmConfig {
    AlgorithmConfig(
      totalItems := Some(s.totalItems),
      variation := None,
      slots := None,
      octaveVariety := Some(s.octaveVariety),
      slurredPercent := Some(s.slurredPercent),
      weighting := Some(WeightingSettings(Some(s.weighting.baseMultiplier), Some(s.weighting.daysFactor),
                                          Some(s.weighting.countDivisor))),
      defaultScaleBpm := Some(s.scaleBpm),
      defaultArpeggioBpm := Some(s.arpeggioBpm),
      scaleBpmUnit := None,
      arpeggioBpmUnit := None,
      weeklyFocus := Some(WeeklyFocusSettings(Some(s.focus.enabled), Some(s.focus.keys), Some(s.focus.types),
                                              None, Some(s.probability)))
    )
  }

  /** Any settings with a positive item count can be stored so that the generator reads
      them back unchanged: no fallback overrides a value that is present. */
  lemma ResolveStoredSettings(s: Settings)
    requires s.totalItems > 0
    ensures ResolveSettings(StoredFor(s)) == s
  {
  }

  /** With nothing stored, the generator runs with the default configuration's values. */
  lemma DefaultSettings()
    ensures ResolveSettings(ConfigOf(None))
         == Settings(5, true, WeightParams(1.0, 7.0, 1.0), 60, 72, Focus(false, [], []), 80.0, 50.0)
  {
  }

  /** Slot allocation applies only when weekly focus is on and names a key or a type. */
  predicate FocusMode(s: Settings) {
    s.focus.enabled && (|s.focus.keys| > 0 || |s.focus.types| > 0)
  }

  function Abs(x: real): real {
    if x < 0.0 then -x else x
  }

  /** Python's `round` on a float: the nearest integer, ties going to the even one. */
  function RoundHalfEven(x: real): (n: int)
    ensures Abs(x - n as real) <= 0.5
    ensures Abs(x - n as real) == 0.5 ==> n % 2 == 0
  {
    var f := x.Floor;
    var d := x - f as real;
    if d < 0.5 then f
    else if d > 0.5 then f + 1
    else if f % 2 == 0 then f
    else f + 1
  }

  /** No integer is nearer to `x` than its rounding. */
  lemma RoundIsNearest(x: real, m: int)
    ensures Abs(x - RoundHalfEven(x) as real) <= Abs(x - m as real)
  {
    var n := RoundHalfEven(x);
    assert m == n || m <= n - 1 || m >= n + 1;
  }

  /** `focus_slots = round(total_items * probability_increase / 100)`. */
  function FocusSlots(total: int, probability: real): int {
    RoundHalfEven(total as real * probability / 100.0)
  }

  lemma PercentBounds(y: real, t: real)
    requires 0.0 <= y <= t * 100.0
    ensures 0.0 <= y / 100.0 <= t
  {
  }

  /** With a probability between 0 and 100 the focus slots fit in the set. */
  lemma FocusSlotsBounds(total: int, probability: real)
    requires total >= 0 && 0.0 <= probability <= 100.0
    ensures 0 <= FocusSlots(total, probability) <= total
  {
    var y := total as real * probability;
    ScaleMonotone(total as real, probability, 100.0);
    assert 0.0 <= y;
    PercentBounds(y, total as real);
  }

  /** The `(type, id)` pairs of some items: `selected_ids`. */
  function KeysOf(ds: seq<ItemData>): (ks: set<ItemKey>)
    ensures ks == KeySet(ds, Key)
  {
    set k | 0 <= k < |ds| :: Key(ds[k])
  }

  /** The pool entries whose `(type, id)` is not in `ids`, in order. */
  function Exclude(pool: seq<Weighted<ItemData>>, ids: set<ItemKey>): (r: seq<Weighted<ItemData>>)
    ensures |r| <= |pool|
    ensures multiset(Items(r)) <= multiset(Items(pool))
    ensures forall k :: 0 <= k < |r| ==> Key(r[k].item) !in ids
  {
    if |pool| == 0 then []
    else
      ItemsConcat([pool[0]], pool[1..]);
      assert pool == [pool[0]] + pool[1..];
      var rest := Exclude(pool[1..], ids);
      if Key(pool[0].item) in ids then rest
      else
        ItemsConcat([pool[0]], rest);
        [pool[0]] + rest
  }

  /** Excluding keys no entry has leaves the pool as it is. */
  lemma {:induction false} ExcludeNothing(pool: seq<Weighted<ItemData>>, ids: set<ItemKey>)
    requires ids !! KeySet(Items(pool), Key)
    ensures Exclude(pool, ids) == pool
  {
    if |pool| > 0 {
      assert Key(Items(pool)[0]) in KeySet(Items(pool), Key);
      forall k | 0 <= k < |pool| - 1 ensures Key(Items(pool[1..])[k]) in KeySet(Items(pool), Key) {
        assert Items(pool[1..])[k] == Items(pool)[k + 1];
      }
      ExcludeNothing(pool[1..], ids);
      assert pool == [pool[0]] + pool[1..];
    }
  }

  /** From a pool with distinct keys, excluding a set of keys removes one entry per key the
      pool holds. */
  lemma {:induction false} ExcludeSize(pool: seq<Weighted<ItemData>>, ids: set<ItemKey>)
    requires DistinctBy(Items(pool), Key)
    ensures |Exclude(pool, ids)| == |pool| - |ids * KeySet(Items(pool), Key)|
  {
    if |pool| > 0 {
      var s := Items(pool);
      var k := Key(pool[0].item);
      DistinctTail(s, Key);
      assert s[1..] == Items(pool[1..]);
      DistinctCons(s[0], s[1..], Key);
      ExcludeSize(pool[1..], ids);
      var tail := KeySet(Items(pool[1..]), Key);
      assert KeySet(s, Key) == {k} + tail;
      if k in ids {
        assert ids * KeySet(s, Key) == (ids * tail) + {k};
        assert k !in ids * tail;
      } else {
        assert ids * KeySet(s, Key) == ids * tail;
      }
    }
  }

  /** Phase 1: the focus slots, from the focus pool. */
  function PhaseOne(p: Pools, slots: int, rng: Draws, cursor: nat): Picks<ItemData> {
    Choose(p.focus, slots, rng, cursor)
  }

  /** Phase 2: the other slots, from the non-focus entries not picked in phase 1. */
  function PhaseTwo(p: Pools, first: Picks<ItemData>, slots: int, rng: Draws): Picks<ItemData> {
    Choose(Exclude(p.nonFocus, KeysOf(first.chosen)), slots, rng, first.cursor)
  }

  /** Phase 3: `need` more picks from every entry of either pool not yet selected. */
  function TopUp(p: Pools, selected: seq<ItemData>, need: int, rng: Draws, cursor: nat): Picks<ItemData> {
    Choose(Exclude(p.focus + p.nonFocus, KeysOf(selected)), need, rng, cursor)
  }

  /** Phase 3, when the first two phases left the set short of `total`. */
  function Fill(p: Pools, total: int, selected: seq<ItemData>, rng: Draws, cursor: nat): Picks<ItemData> {
    if |selected| < total then
      var p3 := TopUp(p, selected, total - |selected|, rng, cursor);
      Picks(selected + p3.chosen, p3.cursor)
    else Picks(selected, cursor)
  }

  /** Slot allocation: focus slots from the focus pool, the other slots from the non-focus
      entries not yet picked, then, if the set is still short, a top-up from everything not
      yet picked. */
  function FocusAssembly(p: Pools, total: int, fs: int, rng: Draws, cursor: nat): Picks<ItemData> {
    var p1 := PhaseOne(p, fs, rng, cursor);
    var p2 := PhaseTwo(p, p1, total - fs, rng);
    Fill(p, total, p1.chosen + p2.chosen, rng, p2.cursor)
  }

  /** The selection before the shuffle, in either mode. */
  function Assemble(s: Settings, p: Pools, rng: Draws, cursor: nat): Picks<ItemData> {
    if FocusMode(s) then FocusAssembly(p, s.totalItems, FocusSlots(s.totalItems, s.probability), rng, cursor)
    else Choose(p.focus + p.nonFocus, s.totalItems, rng, cursor)
  }

  /** The pools hold no two entries with the same `(type, id)`. */
  ghost predicate PoolsDistinct(p: Pools) {
    DistinctBy(Items(p.focus) + Items(p.nonFocus), Key)
  }

  /** Picking from the entries of a pool whose keys are not in `ids` gives distinct keys,
      none of them in `ids`, all of them keys of `all` when the pool is part of `all`. */
  lemma FreshPicks(pool: seq<Weighted<ItemData>>, ids: set<ItemKey>, count: int, rng: Draws, cursor: nat)
    requires DistinctBy(Items(pool), Key)
    ensures var c := Choose(Exclude(pool, ids), count, rng, cursor).chosen;
            DistinctBy(c, Key) && KeySet(c, Key) !! ids && KeySet(c, Key) <= KeySet(Items(pool), Key)
  {
    var avail := Exclude(pool, ids);
    SubMultisetDistinct(Items(avail), Items(pool), Key);
    SubMultisetKeys(Items(avail), Items(pool), Key);
    ChooseDistinct(avail, count, rng, cursor, Key);
    ExcludedKeys(avail, ids);
  }

  /** Phase 1 picks distinct keys of the pools. */
  lemma PhaseOneDistinct(p: Pools, slots: int, rng: Draws, cursor: nat)
    requires PoolsDistinct(p)
    ensures var c := PhaseOne(p, slots, rng, cursor).chosen;
            DistinctBy(c, Key) && KeySet(c, Key) <= KeySet(Items(p.focus) + Items(p.nonFocus), Key)
  {
    var all := Items(p.focus) + Items(p.nonFocus);
    DistinctPrefix(Items(p.focus), Items(p.nonFocus), Key);
    ChooseDistinct(p.focus, slots, rng, cursor, Key);
    assert multiset(Items(p.focus)) <= multiset(all);
    SubMultisetKeys(Items(p.focus), all, Key);
  }

  /** Phase 2 picks distinct keys of the non-focus pool, none picked in phase 1. */
  lemma PhaseTwoFresh(p: Pools, first: Picks<ItemData>, slots: int, rng: Draws)
    requires DistinctBy(Items(p.nonFocus), Key)
    ensures var c := PhaseTwo(p, first, slots, rng).chosen;
            DistinctBy(c, Key) && KeySet(c, Key) !! KeySet(first.chosen, Key)
            && KeySet(c, Key) <= KeySet(Items(p.nonFocus), Key)
  {
    FreshPicks(p.nonFocus, KeysOf(first.chosen), slots, rng, first.cursor);
  }

  /** Phases 1 and 2 together pick distinct keys of the pools. */
  lemma PhaseTwoDistinct(p: Pools, fs: int, rest: int, rng: Draws, cursor: nat)
    requires PoolsDistinct(p)
    ensures var p1 := PhaseOne(p, fs, rng, cursor);
            var sel := p1.chosen + PhaseTwo(p, p1, rest, rng).chosen;
            DistinctBy(sel, Key) && KeySet(sel, Key) <= KeySet(Items(p.focus) + Items(p.nonFocus), Key)
  {
    var p1 := PhaseOne(p, fs, rng, cursor);
    PhaseOneDistinct(p, fs, rng, cursor);
    DistinctPrefix(Items(p.focus), Items(p.nonFocus), Key);
    KeySetConcat(Items(p.focus), Items(p.nonFocus), Key);
    PhaseTwoFresh(p, p1, rest, rng);
    var c2 := PhaseTwo(p, p1, rest, rng).chosen;
    DistinctConcatSets(p1.chosen, c2, Key);
    KeySetConcat(p1.chosen, c2, Key);
  }

  /** The top-up keeps a selection of distinct pool keys distinct. */
  lemma FillDistinct(p: Pools, total: int, selected: seq<ItemData>, rng: Draws, cursor: nat)
    requires PoolsDistinct(p) && DistinctBy(selected, Key)
    requires KeySet(selected, Key) <= KeySet(Items(p.focus) + Items(p.nonFocus), Key)
    ensures var c := Fill(p, total, selected, rng, cursor).chosen;
            DistinctBy(c, Key) && KeySet(c, Key) <= KeySet(Items(p.focus) + Items(p.nonFocus), Key)
  {
    if |selected| < total {
      var all := Items(p.focus) + Items(p.nonFocus);
      var need := total - |selected|;
      var c3 := TopUp(p, selected, need, rng, cursor).chosen;
      assert DistinctBy(c3, Key) && KeySet(c3, Key) !! KeySet(selected, Key) && KeySet(c3, Key) <= KeySet(all, Key) by {
        ItemsConcat(p.focus, p.nonFocus);
        FreshPicks(p.focus + p.nonFocus, KeysOf(selected), need, rng, cursor);
      }
      assert Fill(p, total, selected, rng, cursor).chosen == selected + c3;
      DistinctConcatSets(selected, c3, Key);
      KeySetConcat(selected, c3, Key);
    }
  }

  /** Each phase picks entries whose keys are new: the assembled selection has no
      duplicate `(type, id)`, and every key comes from the pools. */
  lemma FocusAssemblyDistinct(p: Pools, total: int, fs: int, rng: Draws, cursor: nat)
    requires PoolsDistinct(p)
    ensures var c := FocusAssembly(p, total, fs, rng, cursor).chosen;
            DistinctBy(c, Key) && KeySet(c, Key) <= KeySet(Items(p.focus) + Items(p.nonFocus), Key)
  {
    var p1 := PhaseOne(p, fs, rng, cursor);
    var p2 := PhaseTwo(p, p1, total - fs, rng);
    PhaseTwoDistinct(p, fs, total - fs, rng, cursor);
    FillDistinct(p, total, p1.chosen + p2.chosen, rng, p2.cursor);
  }

  /** No entry left after exclusion carries an excluded key. */
  lemma ExcludedKeys(r: seq<Weighted<ItemData>>, ids: set<ItemKey>)
    requires forall k :: 0 <= k < |r| ==> Key(r[k].item) !in ids
    ensures KeySet(Items(r), Key) !! ids
  {
  }

  /** Excluding keys the pool does not hold removes nothing. */
  lemma ExcludeDisjoint(pool: seq<Weighted<ItemData>>, ids: set<ItemKey>)
    requires DistinctBy(Items(pool), Key) && ids !! KeySet(Items(pool), Key)
    ensures |Exclude(pool, ids)| == |pool|
  {
    ExcludeSize(pool, ids);
    assert ids * KeySet(Items(pool), Key) == {};
  }

  /** Excluding keys the pool holds removes one entry per key. */
  lemma ExcludeContained(pool: seq<Weighted<ItemData>>, ids: set<ItemKey>)
    requires DistinctBy(Items(pool), Key) && ids <= KeySet(Items(pool), Key)
    ensures |Exclude(pool, ids)| == |pool| - |ids|
  {
    ExcludeSize(pool, ids);
    assert ids * KeySet(Items(pool), Key) == ids;
  }

  /** Phase 2 loses nothing to the exclusion when phase 1 picked only focus keys. */
  lemma PhaseTwoSize(p: Pools, first: Picks<ItemData>, slots: int, rng: Draws)
    requires DistinctBy(Items(p.nonFocus), Key)
    requires KeySet(first.chosen, Key) !! KeySet(Items(p.nonFocus), Key)
    ensures |PhaseTwo(p, first, slots, rng).chosen| == if slots <= 0 then 0 else Min(slots, |p.nonFocus|)
  {
    ExcludeDisjoint(p.nonFocus, KeysOf(first.chosen));
  }

  /** The top-up completes the set to `total`, or to every pool entry there is. */
  lemma FillSize(p: Pools, total: int, selected: seq<ItemData>, rng: Draws, cursor: nat)
    requires PoolsDistinct(p) && DistinctBy(selected, Key)
    requires KeySet(selected, Key) <= KeySet(Items(p.focus) + Items(p.nonFocus), Key)
    ensures |Fill(p, total, selected, rng, cursor).chosen|
         == if |selected| < total then Min(total, |p.focus| + |p.nonFocus|) else |selected|
  {
    if |selected| < total {
      ItemsConcat(p.focus, p.nonFocus);
      DistinctKeySetSize(selected, Key);
      ExcludeContained(p.focus + p.nonFocus, KeysOf(selected));
    }
  }

  /** Phases 1 and 2 pick as many as their slots allow from their own pools. */
  lemma PhasesSize(p: Pools, fs: int, rest: int, rng: Draws, cursor: nat)
    requires PoolsDistinct(p)
    ensures var p1 := PhaseOne(p, fs, rng, cursor);
            |p1.chosen| == (if fs <= 0 then 0 else Min(fs, |p.focus|))
            && |PhaseTwo(p, p1, rest, rng).chosen| == (if rest <= 0 then 0 else Min(rest, |p.nonFocus|))
  {
    var p1 := PhaseOne(p, fs, rng, cursor);
    DistinctPrefix(Items(p.focus), Items(p.nonFocus), Key);
    ChooseDistinct(p.focus, fs, rng, cursor, Key);
    PhaseTwoSize(p, p1, rest, rng);
  }

  /** With the focus slots between 0 and the set size, slot allocation yields exactly as
      many items as requested, or every item there is when the pools are smaller. */
  lemma FocusAssemblyLength(p: Pools, total: int, fs: int, rng: Draws, cursor: nat)
    requires PoolsDistinct(p) && 0 <= fs <= total
    ensures |FocusAssembly(p, total, fs, rng, cursor).chosen| == Min(total, |p.focus| + |p.nonFocus|)
  {
    PhasesFillSize(p, total, fs, rng, cursor);
    SelectedSize(p, total, fs, rng, cursor);
  }

  /** Phases 1 and 2 never overfill the set, and fill it only when the pools are large
      enough. */
  lemma SelectedSize(p: Pools, total: int, fs: int, rng: Draws, cursor: nat)
    requires PoolsDistinct(p) && 0 <= fs <= total
    ensures var p1 := PhaseOne(p, fs, rng, cursor);
            var sel := p1.chosen + PhaseTwo(p, p1, total - fs, rng).chosen;
            |sel| <= total && (|sel| >= total ==> |sel| == Min(total, |p.focus| + |p.nonFocus|))
  {
    var p1 := PhaseOne(p, fs, rng, cursor);
    var p2 := PhaseTwo(p, p1, total - fs, rng);
    var a, b := |p1.chosen|, |p2.chosen|;
    assert a == Min(fs, |p.focus|) && b == (if total - fs <= 0 then 0 else Min(total - fs, |p.nonFocus|)) by {
      PhasesSize(p, fs, total - fs, rng, cursor);
    }
    SlotArithmetic(total, fs, a, b, |p.focus|, |p.nonFocus|);
    assert |p1.chosen + p2.chosen| == a + b;
  }

  /** The top-up after phases 1 and 2 completes the set to `total`, or to every pool
      entry there is. */
  lemma PhasesFillSize(p: Pools, total: int, fs: int, rng: Draws, cursor: nat)
    requires PoolsDistinct(p)
    ensures var p1 := PhaseOne(p, fs, rng, cursor);
            var p2 := PhaseTwo(p, p1, total - fs, rng);
            var sel := p1.chosen + p2.chosen;
            |Fill(p, total, sel, rng, p2.cursor).chosen|
              == if |sel| < total then Min(total, |p.focus| + |p.nonFocus|) else |sel|
  {
    var p1 := PhaseOne(p, fs, rng, cursor);
    var p2 := PhaseTwo(p, p1, total - fs, rng);
    var sel := p1.chosen + p2.chosen;
    assert DistinctBy(sel, Key) && KeySet(sel, Key) <= KeySet(Items(p.focus) + Items(p.nonFocus), Key) by {
      PhaseTwoDistinct(p, fs, total - fs, rng, cursor);
    }
    FillSize(p, total, sel, rng, p2.cursor);
  }

  /** Phases 1 and 2 never pick more than `total`; when they pick exactly `total`, the
      pools hold at least that many entries. */
  lemma SlotArithmetic(total: int, fs: int, a: int, b: int, nf: nat, nn: nat)
    requires 0 <= fs <= total
    requires a == Min(fs, nf) && b == (if total - fs <= 0 then 0 else Min(total - fs, nn))
    ensures a + b <= total && (a + b >= total ==> a + b == Min(total, nf + nn))
  {
  }

  /** With a focus probability above 100 percent the focus phase alone overfills the set:
      one requested item, two focus items picked. */
  lemma FocusOverfill(p: Pools, rng: Draws, cursor: nat)
    requires |p.focus| >= 2
    ensures FocusSlots(1, 200.0) == 2
    ensures |FocusAssembly(p, 1, FocusSlots(1, 200.0), rng, cursor).chosen| == 2
  {
    assert 1 as real * 200.0 / 100.0 == 2.0;
  }

  /** The selection before the shuffle has the requested size, or every admitted item when
      there are fewer (in focus mode, for a probability between 0 and 100 percent). */
  lemma AssembleLength(s: Settings, p: Pools, rng: Draws, cursor: nat)
    requires PoolsDistinct(p) && s.totalItems > 0
    requires FocusMode(s) ==> 0.0 <= s.probability <= 100.0
    ensures |Assemble(s, p, rng, cursor).chosen| == Min(s.totalItems, |p.focus| + |p.nonFocus|)
  {
    if FocusMode(s) {
      var fs := FocusSlots(s.totalItems, s.probability);
      FocusSlotsBounds(s.totalItems, s.probability);
      FocusAssemblyLength(p, s.totalItems, fs, rng, cursor);
    }
  }

  /** The selection before the shuffle never holds the same `(type, id)` twice, and holds
      only pool entries. */
  lemma AssembleDistinct(s: Settings, p: Pools, rng: Draws, cursor: nat)
    requires PoolsDistinct(p)
    ensures var c := Assemble(s, p, rng, cursor).chosen;
            DistinctBy(c, Key) && KeySet(c, Key) <= KeySet(Items(p.focus) + Items(p.nonFocus), Key)
  {
    if FocusMode(s) {
      FocusAssemblyDistinct(p, s.totalItems, FocusSlots(s.totalItems, s.probability), rng, cursor);
    } else {
      ItemsConcat(p.focus, p.nonFocus);
      ChooseDistinct(p.focus + p.nonFocus, s.totalItems, rng, cursor, Key);
    }
  }

  /** The draws the assembly consumes: one per picked item. */
  lemma AssembleCursor(s: Settings, p: Pools, rng: Draws, cursor: nat)
    ensures var a := Assemble(s, p, rng, cursor);
            a.cursor == cursor + |a.chosen|
  {
  }

  /** The top-up only appends: the picks of phases 1 and 2 stay in front, in order. */
  lemma FillKeepsSelected(p: Pools, total: int, selected: seq<ItemData>, rng: Draws, cursor: nat)
    ensures var c := Fill(p, total, selected, rng, cursor).chosen;
            |selected| <= |c| && c[..|selected|] == selected
  {
  }

  /** Phase 1 picks focus items only, as many as there are focus slots or focus items. */
  lemma PhaseOneFlagged(p: Pools, fs: int, rng: Draws, cursor: nat)
    requires Flagged(Items(p.focus), true)
    ensures var c := PhaseOne(p, fs, rng, cursor).chosen;
            |c| == (if fs <= 0 then 0 else Min(fs, |p.focus|)) && Flagged(c, true)
  {
    FlaggedSub(PhaseOne(p, fs, rng, cursor).chosen, Items(p.focus), true);
  }

  /** In focus mode the set opens with the phase-1 picks, all of them focus items, as many
      as there are focus slots or focus items. */
  lemma FocusFirst(p: Pools, total: int, fs: int, rng: Draws, cursor: nat)
    requires Flagged(Items(p.focus), true)
    ensures var c := FocusAssembly(p, total, fs, rng, cursor).chosen;
            var n := if fs <= 0 then 0 else Min(fs, |p.focus|);
            n <= |c| && forall k :: 0 <= k < n ==> c[k].isWeeklyFocus
  {
    var p1 := PhaseOne(p, fs, rng, cursor);
    var p2 := PhaseTwo(p, p1, total - fs, rng);
    var sel := p1.chosen + p2.chosen;
    FillKeepsSelected(p, total, sel, rng, p2.cursor);
    PhaseOneFlagged(p, fs, rng, cursor);
    var c := Fill(p, total, sel, rng, p2.cursor).chosen;
    forall k | 0 <= k < |p1.chosen| ensures c[k].isWeeklyFocus {
      assert c[k] == c[..|sel|][k] == sel[k] == p1.chosen[k];
    }
  }

  lemma FlaggedSub(a: seq<ItemData>, b: seq<ItemData>, focus: bool)
    requires multiset(a) <= multiset(b) && Flagged(b, focus)
    ensures Flagged(a, focus)
  {
    forall k | 0 <= k < |a| ensures a[k].isWeeklyFocus == focus {
      assert a[k] in multiset(a);
      assert a[k] in multiset(b);
    }
  }

  /** How an item is to be played. */
  datatype Articulation = Slurred | Separate

  /** One entry of the returned practice set: the item and its articulation. */
  datatype Selected = Selected(item: ItemData, articulation: Articulation)

  /** Every draw of the stream lies in [0, 1), as `random.random()` promises. */
  ghost predicate UnitDraws(rng: Draws) {
    forall n :: 0.0 <= rng(n) < 1.0
  }

  /** One draw per item, in order: an item is slurred when `random() * 100` falls below the
      slurred percentage, separate otherwise. */
  function Articulate(items: seq<ItemData>, slurredPercent: real, rng: Draws, cursor: nat): (r: seq<Selected>)
    ensures |r| == |items|
    ensures forall k {:trigger r[k]} :: 0 <= k < |items| ==> r[k].item == items[k]
    ensures forall k {:trigger r[k]} :: 0 <= k < |items| ==>
              (r[k].articulation == Slurred <==> rng(cursor + k) * 100.0 < slurredPercent)
  {
    seq(|items|, k requires 0 <= k < |items| =>
      Selected(items[k], if rng(cursor + k) * 100.0 < slurredPercent then Slurred else Separate))
  }

  /** At 100 percent or more every item is slurred. */
  lemma AllSlurredAtFullPercent(items: seq<ItemData>, slurredPercent: real, rng: Draws, cursor: nat)
    requires UnitDraws(rng) && slurredPercent >= 100.0
    ensures forall k :: 0 <= k < |items| ==> Articulate(items, slurredPercent, rng, cursor)[k].articulation == Slurred
  {
    forall k | 0 <= k < |items|
      ensures Articulate(items, slurredPercent, rng, cursor)[k].articulation == Slurred
    {
      assert rng(cursor + k) < 1.0;
    }
  }

  /** At 0 percent or less no item is slurred. */
  lemma NoneSlurredAtZeroPercent(items: seq<ItemData>, slurredPercent: real, rng: Draws, cursor: nat)
    requires UnitDraws(rng) && slurredPercent <= 0.0
    ensures forall k :: 0 <= k < |items| ==> Articulate(items, slurredPercent, rng, cursor)[k].articulation == Separate
  {
    forall k | 0 <= k < |items|
      ensures Articulate(items, slurredPercent, rng, cursor)[k].articulation == Separate
    {
      assert 0.0 <= rng(cursor + k);
    }
  }

  /** Raising the slurred percentage never turns a slurred item separate. */
  lemma SlurredMonotone(items: seq<ItemData>, lo: real, hi: real, rng: Draws, cursor: nat)
    requires lo <= hi
    ensures forall k :: 0 <= k < |items| && Articulate(items, lo, rng, cursor)[k].articulation == Slurred
              ==> Articulate(items, hi, rng, cursor)[k].articulation == Slurred
  {
  }

  /** The settings the generator runs with. */
  function SettingsOf(stored: Option<AlgorithmConfig>): Settings {
    ResolveSettings(ConfigOf(stored))
  }

  /** The pool-building arguments: no octave used yet, nothing excluded. */
  function PoolSettingsOf(s: Settings): PoolSettings {
    PoolSettings(s.weighting, s.octaveVariety, [], s.scaleBpm, s.arpeggioBpm, s.focus, {})
  }

  /** The practice set drawn from built pools: assemble, shuffle, articulate. */
  function Produce(s: Settings, p: Pools, rng: Draws): seq<Selected> {
    var a := Assemble(s, p, rng, 0);
    var sh := Shuffle(a.chosen, rng, a.cursor);
    Articulate(sh.chosen, s.slurredPercent, rng, sh.cursor)
  }

  /** `generate_practice_set`: build the pools, assemble the set, shuffle it, then give each
      item its articulation. */
  function Generate(stored: Option<AlgorithmConfig>, cat: Catalog, stats: ItemKey -> Stats, rng: Draws)
    : Result<seq<Selected>, WeightError>
  {
    var s := SettingsOf(stored);
    var p :- GetAllWeightedItems(PoolSettingsOf(s), stats, cat);
    Success(Produce(s, p, rng))
  }

  /** Generation fails exactly when the weight of some enabled row cannot be computed. */
  lemma GenerateFails(stored: Option<AlgorithmConfig>, cat: Catalog, stats: ItemKey -> Stats, rng: Draws)
    ensures var ps := PoolSettingsOf(SettingsOf(stored));
            var failed := Generate(stored, cat, stats, rng).Failure?;
            failed <==> !(AllWeigh(ps, stats, Scale, cat.scales) && AllWeigh(ps, stats, Arpeggio, cat.arpeggios))
  {
  }

  /** A successful run draws from the pools the settings build (the unfolding the lemmas
      below start from). */
  lemma GenerateProduces(stored: Option<AlgorithmConfig>, cat: Catalog, stats: ItemKey -> Stats, rng: Draws)
    requires Generate(stored, cat, stats, rng).Success?
    ensures var s := SettingsOf(stored);
            var pools := GetAllWeightedItems(PoolSettingsOf(s), stats, cat);
            pools.Success? && Generate(stored, cat, stats, rng).value == Produce(s, pools.value, rng)
  {
  }

  /** The items of a practice set, in order. */
  function ItemsOf(r: seq<Selected>): (items: seq<ItemData>)
    ensures |items| == |r|
    ensures forall k :: 0 <= k < |r| ==> items[k] == r[k].item
  {
    seq(|r|, k requires 0 <= k < |r| => r[k].item)
  }

  /** The position of the first articulation draw in a set of `m` items: the sampling
      phases read one draw per item and the shuffle one per swap before it. */
  function ArticulationStart(m: nat): nat {
    if m == 0 then 0 else 2 * m - 1
  }

  /** The item at position `k` of a set of `|r|` items is slurred exactly when draw
      `ArticulationStart(|r|) + k` falls below the percentage. */
  predicate ArticulatedByOwnDraws(r: seq<Selected>, slurredPercent: real, rng: Draws) {
    forall k :: 0 <= k < |r| ==>
      (r[k].articulation == Slurred <==> rng(ArticulationStart(|r|) + k) * 100.0 < slurredPercent)
  }

  /** Shuffling items and then articulating them only reorders the items, and the item at
      position `k` is slurred exactly when the `k`-th draw after the shuffle's falls below
      the percentage. */
  lemma ShuffledArticulation(xs: seq<ItemData>, slurredPercent: real, rng: Draws, cursor: nat)
    requires cursor == |xs|
    ensures var sh := Shuffle(xs, rng, cursor);
            multiset(ItemsOf(Articulate(sh.chosen, slurredPercent, rng, sh.cursor))) == multiset(xs)
    ensures var sh := Shuffle(xs, rng, cursor);
            ArticulatedByOwnDraws(Articulate(sh.chosen, slurredPercent, rng, sh.cursor), slurredPercent, rng)
  {
    var sh := Shuffle(xs, rng, cursor);
    assert ItemsOf(Articulate(sh.chosen, slurredPercent, rng, sh.cursor)) == sh.chosen;
  }

  /** The shuffle only reorders the assembled selection, and the item at position `k` is
      slurred exactly when its own draw, the `k`-th after the sampling and the shuffle, falls
      below the slurred percentage. */
  lemma ProduceShape(s: Settings, p: Pools, rng: Draws)
    ensures multiset(ItemsOf(Produce(s, p, rng))) == multiset(Assemble(s, p, rng, 0).chosen)
    ensures ArticulatedByOwnDraws(Produce(s, p, rng), s.slurredPercent, rng)
  {
    var a := Assemble(s, p, rng, 0);
    var sh := Shuffle(a.chosen, rng, a.cursor);
    assert Produce(s, p, rng) == Articulate(sh.chosen, s.slurredPercent, rng, sh.cursor);
    AssembleCursor(s, p, rng, 0);
    ShuffledArticulation(a.chosen, s.slurredPercent, rng, a.cursor);
  }

  /** A successful run returns the selection assembled from the pools the settings build,
      reordered, with each item's articulation decided by its own draw. */
  lemma GenerateShape(stored: Option<AlgorithmConfig>, cat: Catalog, stats: ItemKey -> Stats, rng: Draws)
    requires Generate(stored, cat, stats, rng).Success?
    ensures var s := SettingsOf(stored);
            var pools := GetAllWeightedItems(PoolSettingsOf(s), stats, cat);
            pools.Success? &&
            multiset(ItemsOf(Generate(stored, cat, stats, rng).value)) == multiset(Assemble(s, pools.value, rng, 0).chosen)
    ensures ArticulatedByOwnDraws(Generate(stored, cat, stats, rng).value, SettingsOf(stored).slurredPercent, rng)
  {
    var s := SettingsOf(stored);
    GenerateProduces(stored, cat, stats, rng);
    ProduceShape(s, GetAllWeightedItems(PoolSettingsOf(s), stats, cat).value, rng);
  }

  /** The drawn set has the requested size, or every pooled item when there are fewer
      (`n` counts the pooled items). */
  lemma ProduceLength(s: Settings, p: Pools, rng: Draws, n: int)
    requires PoolsDistinct(p) && s.totalItems > 0 && n == |p.focus| + |p.nonFocus|
    requires FocusMode(s) ==> 0.0 <= s.probability <= 100.0
    ensures |Produce(s, p, rng)| == Min(s.totalItems, n)
  {
    AssembleLength(s, p, rng, 0);
  }

  /** The drawn set has distinct keys, all of them pool keys. */
  lemma ProduceKeys(s: Settings, p: Pools, rng: Draws)
    requires PoolsDistinct(p)
    ensures var r := Produce(s, p, rng);
            forall i, j :: 0 <= i < j < |r| ==> Key(r[i].item) != Key(r[j].item)
    ensures var r := Produce(s, p, rng);
            forall k :: 0 <= k < |r| ==> Key(r[k].item) in KeySet(Items(p.focus) + Items(p.nonFocus), Key)
  {
    var a := Assemble(s, p, rng, 0);
    var items := Shuffle(a.chosen, rng, a.cursor).chosen;
    AssembleDistinct(s, p, rng, 0);
    ShuffleKeys(a.chosen, rng, a.cursor, Key);
    var r := Produce(s, p, rng);
    forall i, j | 0 <= i < j < |r| ensures Key(r[i].item) != Key(r[j].item) {
      assert r[i].item == items[i] && r[j].item == items[j];
    }
    forall k | 0 <= k < |r| ensures Key(r[k].item) in KeySet(Items(p.focus) + Items(p.nonFocus), Key) {
      assert Key(items[k]) in KeySet(items, Key);
    }
  }

  /** Built from catalogs with unique ids and nothing excluded, the pools hold every
      enabled row once. */
  lemma PoolFacts(ps: PoolSettings, stats: ItemKey -> Stats, cat: Catalog)
    requires UniqueIds(cat.scales) && UniqueIds(cat.arpeggios) && ps.excluded == {}
    requires GetAllWeightedItems(ps, stats, cat).Success?
    ensures PoolsDistinct(GetAllWeightedItems(ps, stats, cat).value)
    ensures var p := GetAllWeightedItems(ps, stats, cat).value;
            |p.focus| + |p.nonFocus| == EnabledCount(cat.scales) + EnabledCount(cat.arpeggios)
  {
    PoolKeysDistinct(ps, stats, cat);
    PoolSizes(ps, stats, cat);
    CandidatesAreEnabled(ps, Scale, cat.scales);
    CandidatesAreEnabled(ps, Arpeggio, cat.arpeggios);
  }

  /** Drawn from the pools of two catalogs, the set has the requested size or holds every
      enabled row. */
  lemma CatalogLength(ps: PoolSettings, stats: ItemKey -> Stats, cat: Catalog, p: Pools, s: Settings, rng: Draws)
    requires UniqueIds(cat.scales) && UniqueIds(cat.arpeggios) && ps.excluded == {}
    requires GetAllWeightedItems(ps, stats, cat) == Success(p)
    requires s.totalItems > 0 && (FocusMode(s) ==> 0.0 <= s.probability <= 100.0)
    ensures |Produce(s, p, rng)| == Min(s.totalItems, EnabledCount(cat.scales) + EnabledCount(cat.arpeggios))
  {
    PoolFacts(ps, stats, cat);
    ProduceLength(s, p, rng, EnabledCount(cat.scales) + EnabledCount(cat.arpeggios));
  }

  /** The set has the configured size, or holds every enabled item when there are fewer
      (in focus mode, for a focus probability between 0 and 100 percent). */
  lemma GenerateLength(stored: Option<AlgorithmConfig>, cat: Catalog, stats: ItemKey -> Stats, rng: Draws)
    requires UniqueIds(cat.scales) && UniqueIds(cat.arpeggios)
    requires Generate(stored, cat, stats, rng).Success?
    requires FocusMode(SettingsOf(stored)) ==> 0.0 <= SettingsOf(stored).probability <= 100.0
    ensures |Generate(stored, cat, stats, rng).value|
         == Min(SettingsOf(stored).totalItems, EnabledCount(cat.scales) + EnabledCount(cat.arpeggios))
  {
    var s := SettingsOf(stored);
    GenerateProduces(stored, cat, stats, rng);
    CatalogLength(PoolSettingsOf(s), stats, cat, GetAllWeightedItems(PoolSettingsOf(s), stats, cat).value, s, rng);
  }

  /** No `(type, id)` appears twice in a practice set, and every item of it is an enabled
      scale or arpeggio. */
  lemma GenerateKeys(stored: Option<AlgorithmConfig>, cat: Catalog, stats: ItemKey -> Stats, rng: Draws)
    requires UniqueIds(cat.scales) && UniqueIds(cat.arpeggios)
    requires Generate(stored, cat, stats, rng).Success?
    ensures var r := Generate(stored, cat, stats, rng).value;
            forall i, j :: 0 <= i < j < |r| ==> Key(r[i].item) != Key(r[j].item)
    ensures var r := Generate(stored, cat, stats, rng).value;
            forall k :: 0 <= k < |r| ==>
              Key(r[k].item) in EnabledKeys(Scale, cat.scales) + EnabledKeys(Arpeggio, cat.arpeggios)
  {
    var s := SettingsOf(stored);
    var ps := PoolSettingsOf(s);
    GenerateProduces(stored, cat, stats, rng);
    var p := GetAllWeightedItems(ps, stats, cat).value;
    PoolKeysDistinct(ps, stats, cat);
    PoolKeysEnabled(ps, stats, cat);
    ProduceKeys(s, p, rng);
  }

  /** The `octave_variety` switch has no effect: the generator passes the octave list to
      the pool builder while it is still empty. */
  lemma GenerateIgnoresOctaveVariety(c: AlgorithmConfig, cat: Catalog, stats: ItemKey -> Stats, rng: Draws)
    ensures Generate(Some(c), cat, stats, rng) == Generate(Some(c.(octaveVariety := Some(false))), cat, stats, rng)
  {
    var s := SettingsOf(Some(c));
    var s' := SettingsOf(Some(c.(octaveVariety := Some(false))));
    assert s' == s.(octaveVariety := false);
    assert PoolSettingsOf(s') == PoolSettingsOf(s).(octaveVariety := false);
    OctaveVarietyInertWithoutUsedOctaves(PoolSettingsOf(s), stats, cat);
  }
}
