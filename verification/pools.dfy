/** The two sampling pools of the generator (`_build_item_data` and
    `_get_all_weighted_items` in backend/services/selector.py).

    The database reads become inputs: the catalog tables in query order, and `stats`,
    which answers `get_practice_stats` for any item. */
module Pools {
  import opened Wrappers
  import opened Models
  import opened Weighting
  import opened Sampler
  import opened Sorting

  /** The dictionary `_build_item_data` returns for one catalog row. */
  datatype ItemData = ItemData(
    kind: Kind,
    id: int,
    displayName: string,
    octaves: int,
    targetBpm: int,
    isWeeklyFocus: bool
  )

  /** The `(type, id)` pair that identifies an item across both tables. */
  function Key(d: ItemData): ItemKey {
    ItemKey(d.kind, d.id)
  }

  function RowId(r: Row): int {
    r.id
  }

  /** What `get_practice_stats` reports: the number of practiced entries and, when there is
      one, the whole days since the latest. */
  datatype Stats = Stats(practiceCount: nat, daysSince: Option<int>)

  /** The weekly-focus criteria as the generator reads them from the configuration. */
  datatype Focus = Focus(enabled: bool, keys: seq<string>, types: seq<string>)

  /** Everything `_get_all_weighted_items` takes besides the database. */
  datatype PoolSettings = PoolSettings(
    weighting: WeightParams,
    octaveVariety: bool,
    usedOctaves: seq<int>,
    scaleBpm: int,
    arpeggioBpm: int,
    focus: Focus,
    excluded: set<ItemKey>
  )

  /** `(focus_items, non_focus_items)`. */
  datatype Pools = Pools(focus: seq<Weighted<ItemData>>, nonFocus: seq<Weighted<ItemData>>)

  /** An item is in focus when weekly focus is on and its note is a focus key or its type a
      focus type. */
  predicate IsFocus(f: Focus, r: Row) {
    f.enabled && (r.note in f.keys || r.category in f.types)
  }

  function DefaultBpm(s: PoolSettings, kind: Kind): int {
    match kind
    case Scale => s.scaleBpm
    case Arpeggio => s.arpeggioBpm
  }

  /** `item.target_bpm or default_bpm`: a NULL and a zero target are both replaced. */
  function TargetBpm(r: Row, defaultBpm: int): (bpm: int)
    ensures r.targetBpm.Some? && r.targetBpm.value != 0 ==> bpm == r.targetBpm.value
    ensures r.targetBpm.None? || r.targetBpm == Some(0) ==> bpm == defaultBpm
  {
    match r.targetBpm
    case Some(t) => if t != 0 then t else defaultBpm
    case None => defaultBpm
  }

  /** `_build_item_data`. */
  function BuildItemData(s: PoolSettings, kind: Kind, r: Row): ItemData {
    ItemData(kind, r.id, DisplayName(kind, r), r.octaves, TargetBpm(r, DefaultBpm(s, kind)),
             IsFocus(s.focus, r))
  }

  function BuildAll(s: PoolSettings, kind: Kind, rows: seq<Row>): (ds: seq<ItemData>)
    ensures |ds| == |rows|
    ensures forall k :: 0 <= k < |rows| ==> ds[k] == BuildItemData(s, kind, rows[k])
  {
    seq(|rows|, k requires 0 <= k < |rows| => BuildItemData(s, kind, rows[k]))
  }

  /** A row the loop does not skip: the query keeps only enabled rows, and excluded
      `(type, id)` pairs are passed over. */
  predicate Admitted(s: PoolSettings, kind: Kind, r: Row) {
    r.enabled && ItemKey(kind, r.id) !in s.excluded
  }

  /** The weight of one row: the formula, halved when octave variety is on and the row's
      octave count was already used. */
  function RowWeight(s: PoolSettings, stats: ItemKey -> Stats, kind: Kind, r: Row): (w: Result<real, WeightError>)
    ensures w.Failure? <==> CalculateItemWeight(r.weight, stats(ItemKey(kind, r.id)).practiceCount,
                                                stats(ItemKey(kind, r.id)).daysSince, s.weighting).Failure?
  {
    var st := stats(ItemKey(kind, r.id));
    var base :- CalculateItemWeight(r.weight, st.practiceCount, st.daysSince, s.weighting);
    Success(if s.octaveVariety && r.octaves in s.usedOctaves then base * 0.5 else base)
  }

  /** The octave penalty halves the formula's weight exactly when octave variety is on and
      the octave count is among those already used; otherwise the weight is the formula's. */
  lemma OctavePenalty(s: PoolSettings, stats: ItemKey -> Stats, kind: Kind, r: Row)
    requires RowWeight(s, stats, kind, r).Success?
    ensures var st := stats(ItemKey(kind, r.id));
            var base := CalculateItemWeight(r.weight, st.practiceCount, st.daysSince, s.weighting).value;
            RowWeight(s, stats, kind, r).value == (if s.octaveVariety && r.octaves in s.usedOctaves then base / 2.0 else base)
  {
  }

  /** The rows that reach the pools, in table order. */
  function Candidates(s: PoolSettings, kind: Kind, rows: seq<Row>): (c: seq<Row>)
    ensures |c| <= |rows|
    ensures multiset(c) <= multiset(rows)
    ensures forall k :: 0 <= k < |c| ==> Admitted(s, kind, c[k])
    ensures forall k :: 0 <= k < |rows| && Admitted(s, kind, rows[k]) ==> rows[k] in c
  {
    if |rows| == 0 then []
    else
      assert forall k :: 1 <= k < |rows| ==> rows[k] == rows[1..][k - 1];
      assert rows == [rows[0]] + rows[1..];
      if Admitted(s, kind, rows[0]) then [rows[0]] + Candidates(s, kind, rows[1..])
      else Candidates(s, kind, rows[1..])
  }

  /** The admission test as a filter predicate. */
  function AdmittedBy(s: PoolSettings, kind: Kind): Row -> bool {
    r => Admitted(s, kind, r)
  }

  /** The candidates are the table filtered by admission: every admitted row, in table order
      and with its multiplicity, and nothing else. */
  lemma {:induction false} CandidatesAreFilter(s: PoolSettings, kind: Kind, rows: seq<Row>)
    ensures Candidates(s, kind, rows) == Filter(rows, AdmittedBy(s, kind))
  {
    if |rows| > 0 {
      CandidatesAreFilter(s, kind, rows[1..]);
    }
  }

  /** The candidates whose focus flag is `focus`, in table order. */
  function Share(s: PoolSettings, kind: Kind, rows: seq<Row>, focus: bool): (c: seq<Row>)
    ensures forall k :: 0 <= k < |c| ==> Admitted(s, kind, c[k]) && IsFocus(s.focus, c[k]) == focus
  {
    if |rows| == 0 then []
    else
      assert forall k :: 1 <= k < |rows| ==> rows[k] == rows[1..][k - 1];
      if Admitted(s, kind, rows[0]) && IsFocus(s.focus, rows[0]) == focus then
        [rows[0]] + Share(s, kind, rows[1..], focus)
      else Share(s, kind, rows[1..], focus)
  }

  /** Every row of a table gets a weight. */
  predicate AllWeigh(s: PoolSettings, stats: ItemKey -> Stats, kind: Kind, rows: seq<Row>) {
    forall k :: 0 <= k < |rows| && Admitted(s, kind, rows[k]) ==> RowWeight(s, stats, kind, rows[k]).Success?
  }

  /** The weights a share of rows receives. */
  predicate WeighedAs(s: PoolSettings, stats: ItemKey -> Stats, kind: Kind, rows: seq<Row>, pool: seq<Weighted<ItemData>>) {
    |pool| == |rows| &&
    forall k :: 0 <= k < |rows| ==> RowWeight(s, stats, kind, rows[k]) == Success(pool[k].weight)
  }

  /** The loop over one table: fails exactly when some admitted row's weight divides by
      zero. */
  function SplitRows(s: PoolSettings, stats: ItemKey -> Stats, kind: Kind, rows: seq<Row>)
    : (res: Result<Pools, WeightError>)
    ensures res.Success? <==> AllWeigh(s, stats, kind, rows)
  {
    if |rows| == 0 then Success(Pools([], []))
    else
      var r := rows[0];
      assert forall k :: 1 <= k < |rows| ==> rows[k] == rows[1..][k - 1];
      if !Admitted(s, kind, r) then SplitRows(s, stats, kind, rows[1..])
      else
        var w :- RowWeight(s, stats, kind, r);
        var rest :- SplitRows(s, stats, kind, rows[1..]);
        var e := Weighted(BuildItemData(s, kind, r), w);
        if IsFocus(s.focus, r) then Success(Pools([e] + rest.focus, rest.nonFocus))
        else Success(Pools(rest.focus, [e] + rest.nonFocus))
  }

  /** One of the two pools: the focus pool for `true`. */
  function Part(p: Pools, focus: bool): seq<Weighted<ItemData>> {
    if focus then p.focus else p.nonFocus
  }

  /** The entry one row contributes to the pool selected by `focus`. */
  function Contribution(s: PoolSettings, stats: ItemKey -> Stats, kind: Kind, r: Row, focus: bool)
    : seq<Weighted<ItemData>>
    requires Admitted(s, kind, r) ==> RowWeight(s, stats, kind, r).Success?
  {
    if Admitted(s, kind, r) && IsFocus(s.focus, r) == focus then
      [Weighted(BuildItemData(s, kind, r), RowWeight(s, stats, kind, r).value)]
    else []
  }

  lemma SplitRowsStep(s: PoolSettings, stats: ItemKey -> Stats, kind: Kind, rows: seq<Row>, focus: bool)
    requires |rows| > 0 && SplitRows(s, stats, kind, rows).Success?
    ensures Admitted(s, kind, rows[0]) ==> RowWeight(s, stats, kind, rows[0]).Success?
    ensures SplitRows(s, stats, kind, rows[1..]).Success?
    ensures Part(SplitRows(s, stats, kind, rows).value, focus)
         == Contribution(s, stats, kind, rows[0], focus) + Part(SplitRows(s, stats, kind, rows[1..]).value, focus)
  {
    var r := rows[0];
    var rest := SplitRows(s, stats, kind, rows[1..]);
    if !Admitted(s, kind, r) {
      assert SplitRows(s, stats, kind, rows) == rest;
      assert Contribution(s, stats, kind, r, focus) == [];
    } else {
      var e := Weighted(BuildItemData(s, kind, r), RowWeight(s, stats, kind, r).value);
      if IsFocus(s.focus, r) {
        assert SplitRows(s, stats, kind, rows).value == Pools([e] + rest.value.focus, rest.value.nonFocus);
      } else {
        assert SplitRows(s, stats, kind, rows).value == Pools(rest.value.focus, [e] + rest.value.nonFocus);
      }
    }
  }

  lemma ShareStep(s: PoolSettings, kind: Kind, rows: seq<Row>, focus: bool)
    requires |rows| > 0
    ensures Share(s, kind, rows, focus)
         == (if Admitted(s, kind, rows[0]) && IsFocus(s.focus, rows[0]) == focus then [rows[0]] else [])
            + Share(s, kind, rows[1..], focus)
  {
  }

  lemma BuildAllConcat(s: PoolSettings, kind: Kind, a: seq<Row>, b: seq<Row>)
    ensures BuildAll(s, kind, a + b) == BuildAll(s, kind, a) + BuildAll(s, kind, b)
  {
  }

  /** On success the focus pool holds exactly the built focus rows and the other pool the
      remaining admitted rows, each in table order. */
  lemma {:induction false} SplitRowsItems(s: PoolSettings, stats: ItemKey -> Stats, kind: Kind, rows: seq<Row>, focus: bool)
    requires SplitRows(s, stats, kind, rows).Success?
    ensures Items(Part(SplitRows(s, stats, kind, rows).value, focus)) == BuildAll(s, kind, Share(s, kind, rows, focus))
  {
    if |rows| > 0 {
      var r := rows[0];
      SplitRowsStep(s, stats, kind, rows, focus);
      ShareStep(s, kind, rows, focus);
      SplitRowsItems(s, stats, kind, rows[1..], focus);
      var head := if Admitted(s, kind, r) && IsFocus(s.focus, r) == focus then [r] else [];
      ItemsConcat(Contribution(s, stats, kind, r, focus), Part(SplitRows(s, stats, kind, rows[1..]).value, focus));
      BuildAllConcat(s, kind, head, Share(s, kind, rows[1..], focus));
      assert Items(Contribution(s, stats, kind, r, focus)) == BuildAll(s, kind, head);
    }
  }

  /** On success each pooled entry carries its own row's weight. */
  lemma SplitRowsWeights(s: PoolSettings, stats: ItemKey -> Stats, kind: Kind, rows: seq<Row>)
    requires SplitRows(s, stats, kind, rows).Success?
    ensures WeighedAs(s, stats, kind, Share(s, kind, rows, true), SplitRows(s, stats, kind, rows).value.focus)
    ensures WeighedAs(s, stats, kind, Share(s, kind, rows, false), SplitRows(s, stats, kind, rows).value.nonFocus)
  {
    SplitRowsPartWeights(s, stats, kind, rows, true);
    SplitRowsPartWeights(s, stats, kind, rows, false);
  }

  lemma {:induction false} SplitRowsPartWeights(s: PoolSettings, stats: ItemKey -> Stats, kind: Kind, rows: seq<Row>, focus: bool)
    requires SplitRows(s, stats, kind, rows).Success?
    ensures WeighedAs(s, stats, kind, Share(s, kind, rows, focus), Part(SplitRows(s, stats, kind, rows).value, focus))
  {
    if |rows| > 0 {
      var r := rows[0];
      SplitRowsStep(s, stats, kind, rows, focus);
      ShareStep(s, kind, rows, focus);
      SplitRowsPartWeights(s, stats, kind, rows[1..], focus);
      var sh := Share(s, kind, rows[1..], focus);
      var pool := Part(SplitRows(s, stats, kind, rows[1..]).value, focus);
      if Admitted(s, kind, r) && IsFocus(s.focus, r) == focus {
        var e := Weighted(BuildItemData(s, kind, r), RowWeight(s, stats, kind, r).value);
        assert Contribution(s, stats, kind, r, focus) == [e];
        WeighedAsCons(s, stats, kind, r, e, sh, pool);
      }
    }
  }

  lemma WeighedAsCons(s: PoolSettings, stats: ItemKey -> Stats, kind: Kind, r: Row, e: Weighted<ItemData>,
                      rows: seq<Row>, pool: seq<Weighted<ItemData>>)
    requires RowWeight(s, stats, kind, r) == Success(e.weight) && WeighedAs(s, stats, kind, rows, pool)
    ensures WeighedAs(s, stats, kind, [r] + rows, [e] + pool)
  {
    var rs, ps := [r] + rows, [e] + pool;
    forall k | 0 <= k < |rs| ensures RowWeight(s, stats, kind, rs[k]) == Success(ps[k].weight) {
      if k > 0 {
        assert rs[k] == rows[k - 1] && ps[k] == pool[k - 1];
      }
    }
  }

  /** `_get_all_weighted_items`: scales first, then arpeggios, in each pool. */
  function GetAllWeightedItems(s: PoolSettings, stats: ItemKey -> Stats, cat: Catalog)
    : (res: Result<Pools, WeightError>)
    ensures res.Success? <==> AllWeigh(s, stats, Scale, cat.scales) && AllWeigh(s, stats, Arpeggio, cat.arpeggios)
  {
    var sc :- SplitRows(s, stats, Scale, cat.scales);
    var ar :- SplitRows(s, stats, Arpeggio, cat.arpeggios);
    Success(Pools(sc.focus + ar.focus, sc.nonFocus + ar.nonFocus))
  }

  lemma ItemsConcat<T>(a: seq<Weighted<T>>, b: seq<Weighted<T>>)
    ensures Items(a + b) == Items(a) + Items(b)
  {
  }

  /** On success the focus pool is the scales' focus share followed by the arpeggios', and
      likewise for the other pool. */
  lemma PoolItems(s: PoolSettings, stats: ItemKey -> Stats, cat: Catalog)
    requires GetAllWeightedItems(s, stats, cat).Success?
    ensures Items(GetAllWeightedItems(s, stats, cat).value.focus)
      == BuildAll(s, Scale, Share(s, Scale, cat.scales, true)) + BuildAll(s, Arpeggio, Share(s, Arpeggio, cat.arpeggios, true))
    ensures Items(GetAllWeightedItems(s, stats, cat).value.nonFocus)
      == BuildAll(s, Scale, Share(s, Scale, cat.scales, false)) + BuildAll(s, Arpeggio, Share(s, Arpeggio, cat.arpeggios, false))
  {
    var sc := SplitRows(s, stats, Scale, cat.scales).value;
    var ar := SplitRows(s, stats, Arpeggio, cat.arpeggios).value;
    SplitRowsItems(s, stats, Scale, cat.scales, true);
    SplitRowsItems(s, stats, Scale, cat.scales, false);
    SplitRowsItems(s, stats, Arpeggio, cat.arpeggios, true);
    SplitRowsItems(s, stats, Arpeggio, cat.arpeggios, false);
    ItemsConcat(sc.focus, ar.focus);
    ItemsConcat(sc.nonFocus, ar.nonFocus);
  }

  /** Every item's `is_weekly_focus` flag is `focus`. */
  predicate Flagged(ds: seq<ItemData>, focus: bool) {
    forall k :: 0 <= k < |ds| ==> ds[k].isWeeklyFocus == focus
  }

  lemma ShareFlagged(s: PoolSettings, kind: Kind, rows: seq<Row>, focus: bool)
    ensures Flagged(BuildAll(s, kind, Share(s, kind, rows, focus)), focus)
  {
  }

  lemma FlaggedConcat(a: seq<ItemData>, b: seq<ItemData>, focus: bool)
    requires Flagged(a, focus) && Flagged(b, focus)
    ensures Flagged(a + b, focus)
  {
  }

  /** Each focus entry carries `is_weekly_focus = true` and each other entry `false`. */
  lemma PoolFlags(s: PoolSettings, stats: ItemKey -> Stats, cat: Catalog)
    requires GetAllWeightedItems(s, stats, cat).Success?
    ensures Flagged(Items(GetAllWeightedItems(s, stats, cat).value.focus), true)
    ensures Flagged(Items(GetAllWeightedItems(s, stats, cat).value.nonFocus), false)
  {
    PoolItems(s, stats, cat);
    ShareFlagged(s, Scale, cat.scales, true);
    ShareFlagged(s, Arpeggio, cat.arpeggios, true);
    ShareFlagged(s, Scale, cat.scales, false);
    ShareFlagged(s, Arpeggio, cat.arpeggios, false);
    FlaggedConcat(BuildAll(s, Scale, Share(s, Scale, cat.scales, true)),
                  BuildAll(s, Arpeggio, Share(s, Arpeggio, cat.arpeggios, true)), true);
    FlaggedConcat(BuildAll(s, Scale, Share(s, Scale, cat.scales, false)),
                  BuildAll(s, Arpeggio, Share(s, Arpeggio, cat.arpeggios, false)), false);
  }

  /** With weekly focus off, the focus pool is empty. */
  lemma FocusOffEmptiesFocusPool(s: PoolSettings, stats: ItemKey -> Stats, cat: Catalog)
    requires !s.focus.enabled && GetAllWeightedItems(s, stats, cat).Success?
    ensures GetAllWeightedItems(s, stats, cat).value.focus == []
  {
    PoolItems(s, stats, cat);
    ShareOfUnfocused(s, Scale, cat.scales);
    ShareOfUnfocused(s, Arpeggio, cat.arpeggios);
  }

  lemma {:induction false} ShareOfUnfocused(s: PoolSettings, kind: Kind, rows: seq<Row>)
    requires !s.focus.enabled
    ensures Share(s, kind, rows, true) == []
  {
    if |rows| > 0 {
      ShareOfUnfocused(s, kind, rows[1..]);
    }
  }

  /** The two shares split the candidates: together they are a rearrangement of them. */
  lemma {:induction false} SharesPartition(s: PoolSettings, kind: Kind, rows: seq<Row>)
    ensures multiset(Share(s, kind, rows, true)) + multiset(Share(s, kind, rows, false))
         == multiset(Candidates(s, kind, rows))
  {
    if |rows| > 0 {
      SharesPartition(s, kind, rows[1..]);
    }
  }

  /** Every admitted row lands in exactly one pool: the pools together have one entry per
      candidate row. */
  lemma PoolSizes(s: PoolSettings, stats: ItemKey -> Stats, cat: Catalog)
    requires GetAllWeightedItems(s, stats, cat).Success?
    ensures var p := GetAllWeightedItems(s, stats, cat).value;
            |p.focus| + |p.nonFocus| == |Candidates(s, Scale, cat.scales)| + |Candidates(s, Arpeggio, cat.arpeggios)|
  {
    PoolItems(s, stats, cat);
    SharesPartition(s, Scale, cat.scales);
    SharesPartition(s, Arpeggio, cat.arpeggios);
    SizeOfSum(Share(s, Scale, cat.scales, true), Share(s, Scale, cat.scales, false), Candidates(s, Scale, cat.scales));
    SizeOfSum(Share(s, Arpeggio, cat.arpeggios, true), Share(s, Arpeggio, cat.arpeggios, false),
              Candidates(s, Arpeggio, cat.arpeggios));
  }

  lemma SizeOfSum<T>(a: seq<T>, b: seq<T>, c: seq<T>)
    requires multiset(a) + multiset(b) == multiset(c)
    ensures |a| + |b| == |c|
  {
    assert |multiset(a) + multiset(b)| == |multiset(c)|;
  }

  /** Building items keeps a row's id and the table's kind in the key. */
  lemma BuildAllKeys(s: PoolSettings, kind: Kind, rows: seq<Row>)
    requires DistinctBy(rows, RowId)
    ensures DistinctBy(BuildAll(s, kind, rows), Key)
    ensures forall k :: 0 <= k < |rows| ==> Key(BuildAll(s, kind, rows)[k]) == ItemKey(kind, rows[k].id)
  {
    var ds := BuildAll(s, kind, rows);
    forall i, j | 0 <= i < j < |ds| ensures Key(ds[i]) != Key(ds[j]) {
      assert RowId(rows[i]) != RowId(rows[j]);
    }
  }

  lemma UniqueIdsDistinct(rows: seq<Row>)
    requires UniqueIds(rows)
    ensures DistinctBy(rows, RowId)
  {
  }

  /** The keys of one table's two shares are distinct when the table's ids are, and all of
      them carry the table's kind. */
  lemma SharesDistinct(s: PoolSettings, kind: Kind, rows: seq<Row>)
    requires UniqueIds(rows)
    ensures DistinctBy(BuildAll(s, kind, Share(s, kind, rows, true)) + BuildAll(s, kind, Share(s, kind, rows, false)), Key)
    ensures var ds := BuildAll(s, kind, Share(s, kind, rows, true)) + BuildAll(s, kind, Share(s, kind, rows, false));
            forall k :: 0 <= k < |ds| ==> ds[k].kind == kind
  {
    var f := Share(s, kind, rows, true);
    var n := Share(s, kind, rows, false);
    SharesRowsDistinct(s, kind, rows);
    BuildAllKeys(s, kind, f + n);
    BuildAllConcat(s, kind, f, n);
  }

  lemma SharesRowsDistinct(s: PoolSettings, kind: Kind, rows: seq<Row>)
    requires UniqueIds(rows)
    ensures DistinctBy(Share(s, kind, rows, true) + Share(s, kind, rows, false), RowId)
  {
    var f := Share(s, kind, rows, true);
    var n := Share(s, kind, rows, false);
    UniqueIdsDistinct(rows);
    SharesPartition(s, kind, rows);
    assert multiset(f + n) == multiset(Candidates(s, kind, rows));
    SubMultisetDistinct(f + n, rows, RowId);
  }

  /** No two pooled entries share a `(type, id)` pair when each table's ids are unique. */
  lemma PoolKeysDistinct(s: PoolSettings, stats: ItemKey -> Stats, cat: Catalog)
    requires UniqueIds(cat.scales) && UniqueIds(cat.arpeggios)
    requires GetAllWeightedItems(s, stats, cat).Success?
    ensures var p := GetAllWeightedItems(s, stats, cat).value;
            DistinctBy(Items(p.focus) + Items(p.nonFocus), Key)
  {
    var p := GetAllWeightedItems(s, stats, cat).value;
    PoolItems(s, stats, cat);
    var fs := BuildAll(s, Scale, Share(s, Scale, cat.scales, true));
    var ns := BuildAll(s, Scale, Share(s, Scale, cat.scales, false));
    var fa := BuildAll(s, Arpeggio, Share(s, Arpeggio, cat.arpeggios, true));
    var na := BuildAll(s, Arpeggio, Share(s, Arpeggio, cat.arpeggios, false));
    SharesDistinct(s, Scale, cat.scales);
    SharesDistinct(s, Arpeggio, cat.arpeggios);
    var sc := fs + ns;
    var ar := fa + na;
    forall i, j | 0 <= i < |sc| && 0 <= j < |ar| ensures Key(sc[i]) != Key(ar[j]) {
      assert sc[i] in sc && ar[j] in ar;
    }
    DistinctConcat(sc, ar, Key);
    assert Items(p.focus) + Items(p.nonFocus) == fs + fa + ns + na;
    assert multiset(fs + fa + ns + na) == multiset(sc + ar);
    SubMultisetDistinct(fs + fa + ns + na, sc + ar, Key);
  }

  /** Octave variety cannot change anything while no octave has been used: the pools are
      those computed with octave variety switched off. */
  lemma OctaveVarietyInertWithoutUsedOctaves(s: PoolSettings, stats: ItemKey -> Stats, cat: Catalog)
    requires s.usedOctaves == []
    ensures GetAllWeightedItems(s, stats, cat) == GetAllWeightedItems(s.(octaveVariety := false), stats, cat)
  {
    RowWeightIgnoresVariety(s, stats, Scale, cat.scales);
    RowWeightIgnoresVariety(s, stats, Arpeggio, cat.arpeggios);
  }

  lemma {:induction false} RowWeightIgnoresVariety(s: PoolSettings, stats: ItemKey -> Stats, kind: Kind, rows: seq<Row>)
    requires s.usedOctaves == []
    ensures SplitRows(s, stats, kind, rows) == SplitRows(s.(octaveVariety := false), stats, kind, rows)
  {
    if |rows| > 0 {
      RowWeightIgnoresVariety(s, stats, kind, rows[1..]);
      assert RowWeight(s, stats, kind, rows[0]) == RowWeight(s.(octaveVariety := false), stats, kind, rows[0]);
      assert BuildItemData(s, kind, rows[0]) == BuildItemData(s.(octaveVariety := false), kind, rows[0]);
    }
  }

  /** The `(type, id)` pairs of a table's enabled rows. */
  ghost function EnabledKeys(kind: Kind, rows: seq<Row>): set<ItemKey> {
    set r | r in rows && r.enabled :: ItemKey(kind, r.id)
  }

  /** With nothing excluded, the candidates are exactly the enabled rows. */
  lemma {:induction false} CandidatesAreEnabled(s: PoolSettings, kind: Kind, rows: seq<Row>)
    requires s.excluded == {}
    ensures Candidates(s, kind, rows) == Enabled(rows)
  {
    if |rows| > 0 {
      CandidatesAreEnabled(s, kind, rows[1..]);
    }
  }

  /** Each share holds rows of the table only. */
  lemma ShareWithin(s: PoolSettings, kind: Kind, rows: seq<Row>, focus: bool)
    ensures multiset(Share(s, kind, rows, focus)) <= multiset(rows)
  {
    SharesPartition(s, kind, rows);
  }

  /** The keys built from a share are keys of enabled rows of the table. */
  lemma ShareKeys(s: PoolSettings, kind: Kind, rows: seq<Row>, focus: bool)
    ensures KeySet(BuildAll(s, kind, Share(s, kind, rows, focus)), Key) <= EnabledKeys(kind, rows)
  {
    var sh := Share(s, kind, rows, focus);
    var ds := BuildAll(s, kind, sh);
    ShareWithin(s, kind, rows, focus);
    forall x | x in KeySet(ds, Key) ensures x in EnabledKeys(kind, rows) {
      var k :| 0 <= k < |ds| && Key(ds[k]) == x;
      assert sh[k] in multiset(sh);
      assert sh[k] in rows && sh[k].enabled;
    }
  }

  /** Every pooled entry is keyed by an enabled row of its table. */
  lemma PoolKeysEnabled(s: PoolSettings, stats: ItemKey -> Stats, cat: Catalog)
    requires GetAllWeightedItems(s, stats, cat).Success?
    ensures var p := GetAllWeightedItems(s, stats, cat).value;
            KeySet(Items(p.focus) + Items(p.nonFocus), Key)
              <= EnabledKeys(Scale, cat.scales) + EnabledKeys(Arpeggio, cat.arpeggios)
  {
    PoolItems(s, stats, cat);
    var fs := BuildAll(s, Scale, Share(s, Scale, cat.scales, true));
    var ns := BuildAll(s, Scale, Share(s, Scale, cat.scales, false));
    var fa := BuildAll(s, Arpeggio, Share(s, Arpeggio, cat.arpeggios, true));
    var na := BuildAll(s, Arpeggio, Share(s, Arpeggio, cat.arpeggios, false));
    KeySetConcat(fs, fa, Key);
    KeySetConcat(ns, na, Key);
    KeySetConcat(fs + fa, ns + na, Key);
    ShareKeys(s, Scale, cat.scales, true);
    ShareKeys(s, Scale, cat.scales, false);
    ShareKeys(s, Arpeggio, cat.arpeggios, true);
    ShareKeys(s, Arpeggio, cat.arpeggios, false);
  }
}
