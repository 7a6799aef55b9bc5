/** Catalog rows, their display names, and the default algorithm configuration
    (backend/models.py). */
module Models {
  import opened Wrappers
  import opened Text

  /** Which table a catalog row lives in; the `item_type` strings "scale" and "arpeggio". */
  datatype Kind = Scale | Arpeggio {
    function Name(): string {
      match this
      case Scale => "scale"
      case Arpeggio => "arpeggio"
    }
  }

  /** One row of the `scales` or `arpeggios` table. `category` is the `type` column
      (major, minor_harmonic, diminished, ...); `accidental` is "flat", "sharp" or NULL. */
  datatype Row = Row(
    id: int,
    note: string,
    accidental: Option<string>,
    category: string,
    octaves: int,
    enabled: bool,
    weight: real,
    targetBpm: Option<int>,
    articulationMode: string
  )

  /** The two catalog tables, each in the order the database returns them. */
  datatype Catalog = Catalog(scales: seq<Row>, arpeggios: seq<Row>) {
    function Table(kind: Kind): seq<Row> {
      match kind
      case Scale => scales
      case Arpeggio => arpeggios
    }
  }

  /** The identity of a catalog item across both tables: the `(type, id)` pair. */
  datatype ItemKey = ItemKey(kind: Kind, id: int)

  /** Ids are primary keys: no two rows of one table share an id. */
  predicate UniqueIds(rows: seq<Row>) {
    forall i, j :: 0 <= i < j < |rows| ==> rows[i].id != rows[j].id
  }

  /** The rows the query `filter(enabled == True)` returns, in table order. */
  function Enabled(rows: seq<Row>): seq<Row> {
    if |rows| == 0 then [] else (if rows[0].enabled then [rows[0]] else []) + Enabled(rows[1..])
  }

  /** The number of enabled rows of a table. */
  function EnabledCount(rows: seq<Row>): nat {
    |Enabled(rows)|
  }

  /** The query returns exactly the enabled rows of the table. */
  lemma {:induction false} EnabledMembers(rows: seq<Row>, r: Row)
    ensures r in Enabled(rows) <==> r in rows && r.enabled
  {
    if |rows| > 0 {
      EnabledMembers(rows[1..], r);
      assert rows == [rows[0]] + rows[1..];
    }
  }

  /** `{"flat": "♭", "sharp": "♯"}.get(accidental or "", "")`. */
  function AccidentalSymbol(accidental: Option<string>): (sym: string)
    ensures sym == "♭" <==> accidental == Some("flat")
    ensures sym == "♯" <==> accidental == Some("sharp")
    ensures sym == "" <==> accidental != Some("flat") && accidental != Some("sharp")
  {
    match accidental
    case Some("flat") => "♭"
    case Some("sharp") => "♯"
    case _ => ""
  }

  /** `Scale.display_name()`: underscores of the type become spaces, and "octave" is
      pluralised exactly when there is more than one. */
  function ScaleDisplayName(r: Row): string {
    r.note + AccidentalSymbol(r.accidental) + " " + ReplaceChar(r.category, '_', ' ')
    + " - " + IntToString(r.octaves) + " octave" + (if r.octaves > 1 then "s" else "")
  }

  /** `Arpeggio.display_name()`: the type is kept verbatim and "octaves" is always plural. */
  function ArpeggioDisplayName(r: Row): string {
    r.note + AccidentalSymbol(r.accidental) + " " + r.category + " arpeggio - "
    + IntToString(r.octaves) + " octaves"
  }

  function DisplayName(kind: Kind, r: Row): string {
    match kind
    case Scale => ScaleDisplayName(r)
    case Arpeggio => ArpeggioDisplayName(r)
  }

  /** A scale name ends in "octaves" exactly when the scale spans more than one octave. */
  lemma ScaleNamePlural(r: Row)
    ensures var name := ScaleDisplayName(r); name[|name| - 1] == 's' <==> r.octaves > 1
  {
  }

  /** An arpeggio name always ends in "octaves", whatever the octave count. */
  lemma ArpeggioNameAlwaysPlural(r: Row)
    ensures var name := ArpeggioDisplayName(r); |name| >= 7 && name[|name| - 7..] == "octaves"
  {
  }

  /** The example the practice tests rely on: C, no accidental, major, two octaves. */
  lemma ScaleNameExample(r: Row)
    requires r.note == "C" && r.accidental == None && r.category == "major" && r.octaves == 2
    ensures ScaleDisplayName(r) == "C major - 2 octaves"
  {
    assert IntToString(2) == "2";
  }

  /** If `a + x == b + y`, both `x` and `y` start with a space and neither `a` nor `b` contains one, then `a == b`. */
  lemma SpaceDelimitedPrefix(a: string, b: string, x: string, y: string)
    requires a + x == b + y
    requires |x| > 0 && x[0] == ' ' && |y| > 0 && y[0] == ' '
    requires forall k :: 0 <= k < |a| ==> a[k] != ' '
    requires forall k :: 0 <= k < |b| ==> b[k] != ' '
    ensures a == b
  {
    var s := a + x;
    var m := if |a| < |b| then |a| else |b|;
    assert s[m] == (b + y)[m];
    assert |a| == |b|;
    assert a == s[..|a|] == b;
  }

  /** Equal strings with a common prefix agree after it. */
  lemma CancelPrefix(p: string, x: string, y: string)
    requires p + x == p + y
    ensures x == y
  {
    assert x == (p + x)[|p|..];
    assert y == (p + y)[|p|..];
  }

  lemma IntToStringHasNoSpace(i: int)
    ensures forall k :: 0 <= k < |IntToString(i)| ==> IntToString(i)[k] != ' '
  {
    if i >= 0 {
      assert IntToString(i) == NatToString(i);
    } else {
      assert IntToString(i) == "-" + NatToString(-i);
    }
  }

  /** Two scales that differ only in octave count get different display names. */
  lemma ScaleNameDistinguishesOctaves(r1: Row, r2: Row)
    requires r1.note == r2.note && r1.accidental == r2.accidental && r1.category == r2.category
    requires ScaleDisplayName(r1) == ScaleDisplayName(r2)
    ensures r1.octaves == r2.octaves
  {
    var p := r1.note + AccidentalSymbol(r1.accidental) + " " + ReplaceChar(r1.category, '_', ' ') + " - ";
    var d1, d2 := IntToString(r1.octaves), IntToString(r2.octaves);
    var x1 := " octave" + (if r1.octaves > 1 then "s" else "");
    var x2 := " octave" + (if r2.octaves > 1 then "s" else "");
    assert d1 + x1 == d2 + x2 by {
      assert ScaleDisplayName(r1) == p + (d1 + x1);
      assert ScaleDisplayName(r2) == p + (d2 + x2);
      CancelPrefix(p, d1 + x1, d2 + x2);
    }
    IntToStringHasNoSpace(r1.octaves);
    IntToStringHasNoSpace(r2.octaves);
    SpaceDelimitedPrefix(d1, d2, x1, x2);
    IntToStringInjective(r1.octaves, r2.octaves);
  }

  /** Two arpeggios that differ only in octave count get different display names. */
  lemma ArpeggioNameDistinguishesOctaves(r1: Row, r2: Row)
    requires r1.note == r2.note && r1.accidental == r2.accidental && r1.category == r2.category
    requires ArpeggioDisplayName(r1) == ArpeggioDisplayName(r2)
    ensures r1.octaves == r2.octaves
  {
    var p := r1.note + AccidentalSymbol(r1.accidental) + " " + r1.category + " arpeggio - ";
    var d1, d2 := IntToString(r1.octaves), IntToString(r2.octaves);
    assert d1 + " octaves" == d2 + " octaves" by {
      assert ArpeggioDisplayName(r1) == p + (d1 + " octaves");
      assert ArpeggioDisplayName(r2) == p + (d2 + " octaves");
      CancelPrefix(p, d1 + " octaves", d2 + " octaves");
    }
    IntToStringHasNoSpace(r1.octaves);
    IntToStringHasNoSpace(r2.octaves);
    SpaceDelimitedPrefix(d1, d2, " octaves", " octaves");
    IntToStringInjective(r1.octaves, r2.octaves);
  }

  // ---------------------------------------------------------------------------
  // Algorithm configuration, as stored in the `selection_algorithm` setting.
  // Every key is optional in a stored value; readers supply their own defaults.
  // ---------------------------------------------------------------------------

  /** One category bucket of the configuration. */
  datatype Slot = Slot(name: string, types: seq<string>, itemType: string, percent: int)

  datatype WeightingSettings = WeightingSettings(
    baseMultiplier: Option<real>,
    daysSincePracticeFactor: Option<real>,
    practiceCountDivisor: Option<real>
  )

  datatype WeeklyFocusSettings = WeeklyFocusSettings(
    enabled: Option<bool>,
    keys: Option<seq<string>>,
    types: Option<seq<string>>,
    categories: Option<seq<string>>,
    probabilityIncrease: Option<real>
  )

  datatype AlgorithmConfig = AlgorithmConfig(
    totalItems: Option<int>,
    variation: Option<int>,
    slots: Option<seq<Slot>>,
    octaveVariety: Option<bool>,
    slurredPercent: Option<real>,
    weighting: Option<WeightingSettings>,
    defaultScaleBpm: Option<int>,
    defaultArpeggioBpm: Option<int>,
    scaleBpmUnit: Option<string>,
    arpeggioBpmUnit: Option<string>,
    weeklyFocus: Option<WeeklyFocusSettings>
  )

  function SlotPercentTotal(slots: seq<Slot>): int {
    if |slots| == 0 then 0 else slots[0].percent + SlotPercentTotal(slots[1..])
  }

  /** Every key of the configuration is present. */
  predicate Complete(c: AlgorithmConfig) {
    && c.totalItems.Some? && c.variation.Some? && c.slots.Some? && c.octaveVariety.Some?
    && c.slurredPercent.Some? && c.weighting.Some? && c.defaultScaleBpm.Some?
    && c.defaultArpeggioBpm.Some? && c.scaleBpmUnit.Some? && c.arpeggioBpmUnit.Some?
    && c.weeklyFocus.Some?
    && c.weighting.value.baseMultiplier.Some? && c.weighting.value.daysSincePracticeFactor.Some?
    && c.weighting.value.practiceCountDivisor.Some?
    && c.weeklyFocus.value.enabled.Some? && c.weeklyFocus.value.keys.Some?
    && c.weeklyFocus.value.types.Some? && c.weeklyFocus.value.categories.Some?
    && c.weeklyFocus.value.probabilityIncrease.Some?
  }

  /** `DEFAULT_ALGORITHM_CONFIG`: four slots whose percentages add up to 100, weekly focus
      switched off with no keys or types, and the weighting the selector also uses as
      its fallback. */
  function DefaultConfig(): (c: AlgorithmConfig)
    ensures Complete(c)
    ensures |c.slots.value| == 4 && SlotPercentTotal(c.slots.value) == 100
    ensures forall k :: 0 <= k < |c.slots.value| ==> 0 <= c.slots.value[k].percent <= 100
    ensures c.weeklyFocus.value.enabled == Some(false)
    ensures c.weeklyFocus.value.keys == Some([]) && c.weeklyFocus.value.types == Some([])
    ensures c.totalItems == Some(5) && c.slurredPercent == Some(50.0)
    ensures c.weighting == Some(WeightingSettings(Some(1.0), Some(7.0), Some(1.0)))
  {
    AlgorithmConfig(
      totalItems := Some(5),
      variation := Some(20),
      slots := Some([
        Slot("Tonal Scales", ["major", "minor_harmonic", "minor_melodic"], "scale", 30),
        Slot("Chromatic Scales", ["chromatic"], "scale", 10),
        Slot("Seventh Arpeggios", ["diminished", "dominant"], "arpeggio", 10),
        Slot("Triad Arpeggios", ["major", "minor"], "arpeggio", 50)
      ]),
      octaveVariety := Some(true),
      slurredPercent := Some(50.0),
      weighting := Some(WeightingSettings(Some(1.0), Some(7.0), Some(1.0))),
      defaultScaleBpm := Some(60),
      defaultArpeggioBpm := Some(72),
      scaleBpmUnit := Some("quaver"),
      arpeggioBpmUnit := Some("quaver"),
      weeklyFocus := Some(WeeklyFocusSettings(Some(false), Some([]), Some([]), Some([]), Some(80.0)))
    )
  }
}
