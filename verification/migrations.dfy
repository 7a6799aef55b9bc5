/** The schema migrations (backend/services/migrations.py): the recorded schema version and
    the one data migration, which gives every (note, accidental, type) combination a 1-octave
    arpeggio. The database is the catalog, the `schema_versions` table and the settings. */
module Migrations {
  import opened Wrappers
  import opened Models
  import opened Sorting

  const CurrentSchemaVersion: int := 1
  const V1Description: string := "Add 1-octave arpeggios"

  const Notes: seq<string> := ["A", "B", "C", "D", "E", "F", "G"]
  const Accidentals: seq<Option<string>> := [None, Some("flat"), Some("sharp")]
  const ArpeggioTypes: seq<string> := ["major", "minor", "diminished", "dominant"]

  /** Two positions of a list of constants hold the same value only if they are the same. */
  lemma ConstantsDistinct()
    ensures forall a, b :: 0 <= a < |Notes| && 0 <= b < |Notes| && Notes[a] == Notes[b] ==> a == b
    ensures forall a, b :: 0 <= a < |Accidentals| && 0 <= b < |Accidentals| && Accidentals[a] == Accidentals[b] ==> a == b
    ensures forall a, b :: 0 <= a < |ArpeggioTypes| && 0 <= b < |ArpeggioTypes| && ArpeggioTypes[a] == ArpeggioTypes[b] ==> a == b
  {
  }

  /** The `schema_versions` table, which may not exist yet. */
  datatype VersionTable = NoTable | Versions(recorded: seq<int>)

  datatype Db = Db(catalog: Catalog, versions: VersionTable, settings: map<string, AlgorithmConfig>)

  datatype AppliedMigration = AppliedMigration(version: int, description: string, arpeggiosAdded: nat)

  datatype MigrationReport = MigrationReport(initialVersion: int, finalVersion: int, applied: seq<AppliedMigration>)

  /** A (note, accidental, type) combination. */
  datatype Combo = Combo(note: string, accidental: Option<string>, category: string)

  function ComboOf(r: Row): Combo {
    Combo(r.note, r.accidental, r.category)
  }

  // ---------------------------------------------------------------------------
  // Versions
  // ---------------------------------------------------------------------------

  /** `get_current_version`: 0 without a table or a row, otherwise the largest recorded version. */
  function CurrentVersion(t: VersionTable): (v: int)
    ensures t.NoTable? || |t.recorded| == 0 ==> v == 0
    ensures t.Versions? && |t.recorded| > 0 ==> v in t.recorded && forall k :: 0 <= k < |t.recorded| ==> t.recorded[k] <= v
  {
    match t
    case NoTable => 0
    case Versions(xs) => MaxOf(xs).GetOr(0)
  }

  /** `record_migration`. */
  function Record(t: VersionTable, version: int): VersionTable {
    match t
    case NoTable => Versions([version])
    case Versions(xs) => Versions(xs + [version])
  }

  /** Whether the table holds a row for `version`, its primary key. */
  predicate Recorded(t: VersionTable, version: int) {
    t.Versions? && version in t.recorded
  }

  /** Only versions this code defines are recorded. */
  predicate KnownVersions(t: VersionTable) {
    t.Versions? ==> forall k :: 0 <= k < |t.recorded| ==> t.recorded[k] <= CurrentSchemaVersion
  }

  /** With only known versions recorded, being at the current version means having recorded it. */
  lemma AtCurrentMeansRecorded(t: VersionTable)
    requires KnownVersions(t) && CurrentVersion(t) >= CurrentSchemaVersion
    ensures Recorded(t, CurrentSchemaVersion)
  {
  }

  /** Recording a version makes the current version the larger of the two, counting a
      missing or empty table as version 0. */
  lemma RecordRaisesVersion(t: VersionTable, version: int)
    requires version >= 0
    ensures CurrentVersion(Record(t, version)) == (if CurrentVersion(t) >= version then CurrentVersion(t) else version)
  {
    var t' := Record(t, version);
    assert t'.recorded[|t'.recorded| - 1] == version;
    if t.Versions? {
      assert forall k :: 0 <= k < |t.recorded| ==> t'.recorded[k] == t.recorded[k];
    }
  }

  // ---------------------------------------------------------------------------
  // v0 -> v1: 1-octave arpeggios
  // ---------------------------------------------------------------------------

  /** The combination at position `j` of the three nested loops (notes outermost). */
  function ComboAt(j: int): Combo
    requires 0 <= j < 84
  {
    Combo(Notes[j / 12], Accidentals[(j % 12) / 4], ArpeggioTypes[(j % 12) % 4])
  }

  /** The 84 combinations in loop order. */
  function AllCombos(): (cs: seq<Combo>)
    ensures |cs| == 84
    ensures forall j :: 0 <= j < 84 ==> cs[j] == ComboAt(j)
  {
    seq(84, j requires 0 <= j < 84 => ComboAt(j))
  }

  /** The loops visit no combination twice. */
  lemma AllCombosDistinct(i: int, j: int)
    requires 0 <= i < 84 && 0 <= j < 84 && i != j
    ensures AllCombos()[i] != AllCombos()[j]
  {
    ConstantsDistinct();
  }

  /** The combinations that already have a 1-octave arpeggio. */
  function OneOctaveCombos(rows: seq<Row>): set<Combo> {
    set r | r in rows && r.octaves == 1 :: ComboOf(r)
  }

  function AbsentFrom(s: set<Combo>): Combo -> bool {
    (c: Combo) => c !in s
  }

  /** The id the next inserted row gets: one more than the largest, as SQLite assigns rowids. */
  function NextRowId(rows: seq<Row>): (id: int)
    ensures forall k :: 0 <= k < |rows| ==> rows[k].id < id
    ensures id >= 1
  {
    if |rows| == 0 then 1
    else
      var rest := NextRowId(rows[1..]);
      assert forall k :: 1 <= k < |rows| ==> rows[k] == rows[1..][k - 1];
      if rows[0].id + 1 > rest then rows[0].id + 1 else rest
  }

  /** A row as the migration and the seed create it: disabled, weight 1.0, no target tempo,
      the column default articulation mode. */
  function NewRow(id: int, c: Combo, octaves: int): Row {
    Row(id, c.note, c.accidental, c.category, octaves, false, 1.0, None, "both")
  }

  /** Rows for `cs`, with consecutive ids from `first`. */
  function NewRows(first: int, cs: seq<Combo>, octaves: int): (rows: seq<Row>)
    ensures |rows| == |cs|
    ensures forall k :: 0 <= k < |cs| ==> rows[k] == NewRow(first + k, cs[k], octaves)
  {
    seq(|cs|, k requires 0 <= k < |cs| => NewRow(first + k, cs[k], octaves))
  }

  /** The combinations of `all` that lack a 1-octave arpeggio, in the order of `all`. */
  function MissingCombos(all: seq<Combo>, rows: seq<Row>): seq<Combo> {
    Filter(all, AbsentFrom(OneOctaveCombos(rows)))
  }

  /** Appends a disabled 1-octave arpeggio for each combination of `all` that has none. */
  function AddMissing(all: seq<Combo>, arps: seq<Row>): (r: (seq<Row>, nat))
  {
    var missing := MissingCombos(all, arps);
    (arps + NewRows(NextRowId(arps), missing, 1), |missing|)
  }

  /** `migrate_v0_to_v1`: the arpeggio table afterwards and the number of rows added. */
  function MigrateV0ToV1(arps: seq<Row>): (r: (seq<Row>, nat))
  {
    AddMissing(AllCombos(), arps)
  }

  /** The migration appends rows and reports how many, at most one per combination, and the
      ids it gives are fresh. */
  lemma AddMissingAppends(all: seq<Combo>, arps: seq<Row>)
    ensures var (arps', added) := AddMissing(all, arps);
            && |arps'| == |arps| + added
            && arps'[..|arps|] == arps
            && added <= |all|
            && (UniqueIds(arps) ==> UniqueIds(arps'))
  {
    var (arps', added) := AddMissing(all, arps);
    assert arps'[..|arps|] == arps;
  }

  /** Every added row is a disabled 1-octave arpeggio of weight 1.0 for a combination of
      `all` that had none. */
  lemma AddMissingRows(all: seq<Combo>, arps: seq<Row>, k: int)
    requires |arps| <= k < |AddMissing(all, arps).0|
    ensures var row := AddMissing(all, arps).0[k];
            && row.octaves == 1 && !row.enabled && row.weight == 1.0
            && ComboOf(row) in all && ComboOf(row) !in OneOctaveCombos(arps)
  {
    var missing := MissingCombos(all, arps);
    var c := missing[k - |arps|];
    assert AddMissing(all, arps).0[k] == NewRow(NextRowId(arps) + (k - |arps|), c, 1);
    assert c in missing;
    FilterMembers(all, AbsentFrom(OneOctaveCombos(arps)), c);
  }

  /** Every combination of `all` that had no 1-octave arpeggio gets one. */
  lemma AddMissingCovers(all: seq<Combo>, arps: seq<Row>, c: Combo)
    requires c in all && c !in OneOctaveCombos(arps)
    ensures exists k :: |arps| <= k < |AddMissing(all, arps).0| && ComboOf(AddMissing(all, arps).0[k]) == c
  {
    var missing := MissingCombos(all, arps);
    FilterMembers(all, AbsentFrom(OneOctaveCombos(arps)), c);
    var m :| 0 <= m < |missing| && missing[m] == c;
    assert AddMissing(all, arps).0[|arps| + m] == NewRow(NextRowId(arps) + m, c, 1);
  }

  /** Afterwards every combination of `all` has a 1-octave arpeggio. */
  lemma AddMissingCompletes(all: seq<Combo>, arps: seq<Row>, c: Combo)
    requires c in all
    ensures c in OneOctaveCombos(AddMissing(all, arps).0)
  {
    var arps' := AddMissing(all, arps).0;
    if c in OneOctaveCombos(arps) {
      var r :| r in arps && r.octaves == 1 && ComboOf(r) == c;
      var k :| 0 <= k < |arps| && arps[k] == r;
      assert arps'[k] == r;
    } else {
      AddMissingCovers(all, arps, c);
      var k :| |arps| <= k < |arps'| && ComboOf(arps'[k]) == c;
      AddMissingRows(all, arps, k);
      assert arps'[k] in arps';
    }
  }

  /** When nothing is missing, the migration adds nothing and changes nothing. */
  lemma AddMissingNoop(all: seq<Combo>, arps: seq<Row>)
    requires forall c :: c in all ==> c in OneOctaveCombos(arps)
    ensures AddMissing(all, arps) == (arps, 0)
  {
    var missing := MissingCombos(all, arps);
    if |missing| > 0 {
      FilterMembers(all, AbsentFrom(OneOctaveCombos(arps)), missing[0]);
      assert false;
    }
    assert arps + NewRows(NextRowId(arps), missing, 1) == arps;
  }

  /** The migration is idempotent: running it again adds 0 rows and changes nothing. */
  lemma MigrationIdempotent(arps: seq<Row>)
    ensures var once := MigrateV0ToV1(arps).0;
            MigrateV0ToV1(once) == (once, 0)
  {
    var once := MigrateV0ToV1(arps).0;
    forall c | c in AllCombos() ensures c in OneOctaveCombos(once) {
      AddMissingCompletes(AllCombos(), arps, c);
    }
    AddMissingNoop(AllCombos(), once);
  }

  // ---------------------------------------------------------------------------
  // Running the pending migrations
  // ---------------------------------------------------------------------------

  /** `run_migrations`: version 1 is applied only below version 1, and recorded. */
  function RunMigrations(db: Db): (Db, MigrationReport) {
    var initial := CurrentVersion(db.versions);
    if initial < 1 then
      var (arps, added) := MigrateV0ToV1(db.catalog.arpeggios);
      (db.(catalog := db.catalog.(arpeggios := arps), versions := Record(db.versions, 1)),
       MigrationReport(initial, 1, [AppliedMigration(1, V1Description, added)]))
    else
      (db, MigrationReport(initial, initial, []))
  }

  /** The migration runs exactly when the database is below version 1; the final version is
      never below the initial one and is the version the table then records; scales and
      settings are never touched. */
  lemma RunMigrationsGating(db: Db)
    ensures var (db', rep) := RunMigrations(db);
            && rep.initialVersion == CurrentVersion(db.versions)
            && (|rep.applied| > 0 <==> rep.initialVersion < 1)
            && rep.finalVersion >= rep.initialVersion
            && rep.finalVersion >= 1
            && CurrentVersion(db'.versions) == rep.finalVersion
            && db'.catalog.scales == db.catalog.scales && db'.settings == db.settings
            && (rep.initialVersion >= 1 ==> db' == db)
            && (rep.initialVersion < 1 ==> rep.applied[0].arpeggiosAdded == |db'.catalog.arpeggios| - |db.catalog.arpeggios|)
  {
    var initial := CurrentVersion(db.versions);
    if initial < 1 {
      RecordRaisesVersion(db.versions, 1);
      AddMissingAppends(AllCombos(), db.catalog.arpeggios);
    }
  }

  /** Running the migrations a second time does nothing. */
  lemma RunMigrationsTwice(db: Db)
    ensures var once := RunMigrations(db).0;
            RunMigrations(once) == (once, MigrationReport(CurrentVersion(once.versions), CurrentVersion(once.versions), []))
  {
    RunMigrationsGating(db);
  }
}
