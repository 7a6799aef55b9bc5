/** Database initialisation (backend/services/initializer.py): the seed catalog of every
    note × accidental × type × octave count, the "only when empty" guard, the default
    algorithm setting, and how it is ordered with the migrations. */
module Initializer {
  import opened Wrappers
  import opened Models
  import opened Migrations

  const ScaleTypes: seq<string> := ["major", "minor_harmonic", "minor_melodic", "chromatic"]
  const Octaves: seq<int> := [1, 2, 3]
  const AlgorithmKey: string := "selection_algorithm"

  /** Both seeds enumerate 7 notes × 3 accidentals × 4 types × 3 octave counts. */
  const SeedSize: nat := 252

  datatype InitReport =
    | Migrated(scales: nat, arpeggios: nat, migrations: MigrationReport)
    | Initialized(scales: nat, arpeggios: nat, schemaVersion: int)

  // ---------------------------------------------------------------------------
  // The seed catalog
  // ---------------------------------------------------------------------------

  /** The row the four nested loops create at step `i` (notes outermost, octaves innermost). */
  function SeedRow(types: seq<string>, first: int, i: int): Row
    requires |types| == 4 && 0 <= i < SeedSize
  {
    NewRow(first + i, Combo(Notes[i / 36], Accidentals[(i % 36) / 12], types[((i % 36) % 12) / 3]), Octaves[((i % 36) % 12) % 3])
  }

  /** One seeded table, ids consecutive from `first`. */
  function SeedTable(types: seq<string>, first: int): (rows: seq<Row>)
    requires |types| == 4
    ensures |rows| == SeedSize
    ensures forall i :: 0 <= i < SeedSize ==> rows[i] == SeedRow(types, first, i)
  {
    seq(SeedSize, i requires 0 <= i < SeedSize => SeedRow(types, first, i))
  }

  function SeedScales(first: int): seq<Row> {
    SeedTable(ScaleTypes, first)
  }

  function SeedArpeggios(first: int): seq<Row> {
    SeedTable(ArpeggioTypes, first)
  }

  /** Every seeded row is disabled with weight 1.0, and the ids are distinct. */
  lemma SeedRowsShape(types: seq<string>, first: int)
    requires |types| == 4
    ensures var rows := SeedTable(types, first);
            && UniqueIds(rows)
            && forall k :: 0 <= k < |rows| ==> !rows[k].enabled && rows[k].weight == 1.0 && rows[k].octaves in Octaves
  {
  }

  /** No (note, accidental, type, octaves) repeats within a seeded table whose types are distinct. */
  lemma SeedDistinct(types: seq<string>, first: int, i: int, j: int)
    requires |types| == 4 && forall a, b :: 0 <= a < b < 4 ==> types[a] != types[b]
    requires 0 <= i < SeedSize && 0 <= j < SeedSize && i != j
    ensures var rows := SeedTable(types, first);
            ComboOf(rows[i]) != ComboOf(rows[j]) || rows[i].octaves != rows[j].octaves
  {
    var rows := SeedTable(types, first);
    assert rows[i] == SeedRow(types, first, i) && rows[j] == SeedRow(types, first, j);
    ConstantsDistinct();
    DigitsDiffer(i, j);
  }

  /** Two different loop steps differ in at least one loop index. */
  lemma DigitsDiffer(i: int, j: int)
    requires 0 <= i < SeedSize && 0 <= j < SeedSize && i != j
    ensures || i / 36 != j / 36 || (i % 36) / 12 != (j % 36) / 12
            || ((i % 36) % 12) / 3 != ((j % 36) % 12) / 3 || ((i % 36) % 12) % 3 != ((j % 36) % 12) % 3
  {
  }

  /** The 1-octave arpeggio of the combination at migration step `j` is seed step `3 * j`. */
  lemma SeedStepOfCombo(j: int)
    requires 0 <= j < 84
    ensures (3 * j) / 36 == j / 12 && ((3 * j) % 36) / 12 == (j % 12) / 4
    ensures (((3 * j) % 36) % 12) / 3 == (j % 12) % 4 && (((3 * j) % 36) % 12) % 3 == 0
  {
    var a, r := j / 12, j % 12;
    var b, c := r / 4, r % 4;
    assert 3 * j == 36 * a + (12 * b + 3 * c);
  }

  /** The scale and arpeggio type lists have no repeats. */
  lemma TypesDistinct()
    ensures forall a, b :: 0 <= a < b < 4 ==> ScaleTypes[a] != ScaleTypes[b]
    ensures forall a, b :: 0 <= a < b < 4 ==> ArpeggioTypes[a] != ArpeggioTypes[b]
  {
  }

  /** The arpeggio seed already holds every 1-octave arpeggio the migration would add. */
  lemma SeedHasOneOctaveArpeggios(first: int, c: Combo)
    requires c in AllCombos()
    ensures c in OneOctaveCombos(SeedArpeggios(first))
  {
    var j :| 0 <= j < 84 && AllCombos()[j] == c;
    var i := 3 * j;
    SeedStepOfCombo(j);
    var row := SeedRow(ArpeggioTypes, first, i);
    assert row == SeedArpeggios(first)[i];
    assert ComboOf(row) == ComboAt(j);
    assert row.octaves == 1;
  }

  // ---------------------------------------------------------------------------
  // Initialisation
  // ---------------------------------------------------------------------------

  /** The settings with the default algorithm configuration added when none is stored. */
  function WithDefaultSetting(settings: map<string, AlgorithmConfig>): (r: map<string, AlgorithmConfig>)
    ensures AlgorithmKey in r
    ensures AlgorithmKey in settings ==> r == settings
    ensures AlgorithmKey !in settings ==> r[AlgorithmKey] == DefaultConfig() && forall k :: k in settings ==> k in r && r[k] == settings[k]
  {
    if AlgorithmKey in settings then settings else settings[AlgorithmKey := DefaultConfig()]
  }

  predicate EmptyCatalog(c: Catalog) {
    |c.scales| == 0 && |c.arpeggios| == 0
  }

  /** The commit fails when it adds a schema version the table already holds. */
  datatype InitError = DuplicateSchemaVersion

  /** Both seeds and the default setting, with the version table given. */
  function Seeded(db: Db, versions: VersionTable): (Db, InitReport) {
    var scales := SeedScales(NextRowId(db.catalog.scales));
    var arps := SeedArpeggios(NextRowId(db.catalog.arpeggios));
    (Db(Catalog(db.catalog.scales + scales, db.catalog.arpeggios + arps), versions, WithDefaultSetting(db.settings)),
     Initialized(|scales|, |arps|, CurrentSchemaVersion))
  }

  /** The fresh-database branch as written: both seeds, the default setting, and a new row
      for the current schema version, which violates the key when that version is recorded. */
  function SeedDbAsWritten(db: Db): Result<(Db, InitReport), InitError> {
    if Recorded(db.versions, CurrentSchemaVersion) then Failure(DuplicateSchemaVersion)
    else Success(Seeded(db, Record(db.versions, CurrentSchemaVersion)))
  }

  /** The fresh-database branch as intended: the schema version is recorded unless it already is. */
  function SeedDb(db: Db): (Db, InitReport) {
    Seeded(db, if Recorded(db.versions, CurrentSchemaVersion) then db.versions else Record(db.versions, CurrentSchemaVersion))
  }

  /** `init_scales_and_arpeggios` as written: the migrations run first, so on a fresh
      database the 1-octave arpeggios they add make the catalog look initialised. */
  function InitAsWritten(db: Db): Result<(Db, InitReport), InitError> {
    var (db1, migrations) := RunMigrations(db);
    if !EmptyCatalog(db1.catalog) then
      Success((db1, Migrated(|db1.catalog.scales|, |db1.catalog.arpeggios|, migrations)))
    else
      SeedDbAsWritten(db1)
  }

  /** `init_scales_and_arpeggios` as intended: a database whose catalog is empty is seeded;
      any other is migrated and left alone. */
  function Init(db: Db): (Db, InitReport) {
    if EmptyCatalog(db.catalog) then
      SeedDb(db)
    else
      var (db1, migrations) := RunMigrations(db);
      (db1, Migrated(|db1.catalog.scales|, |db1.catalog.arpeggios|, migrations))
  }

  /** As written, a fresh unversioned database gets no scales and only the 84 1-octave
      arpeggios. */
  lemma InitAsWrittenSkipsSeed(db: Db)
    requires EmptyCatalog(db.catalog) && CurrentVersion(db.versions) < 1
    ensures InitAsWritten(db).Success?
    ensures var (db', rep) := InitAsWritten(db).value;
            && rep.Migrated?
            && |db'.catalog.scales| == 0
            && |db'.catalog.arpeggios| == 84
            && db'.settings == db.settings
  {
    MigrateEmptyAddsAll(db.catalog.arpeggios);
  }

  /** The migration adds all 84 combinations to an empty arpeggio table. */
  lemma MigrateEmptyAddsAll(arps: seq<Row>)
    requires |arps| == 0
    ensures |MigrateV0ToV1(arps).0| == 84
  {
    AddMissingAppends(AllCombos(), arps);
    assert OneOctaveCombos(arps) == {};
    FilterAll(AllCombos(), OneOctaveCombos(arps));
  }

  /** As written, the seeding branch never completes: on a database that only records
      versions this code knows, initialisation either fails on the schema-version key or
      reports a migrated database. */
  lemma InitAsWrittenNeverSeeds(db: Db)
    requires KnownVersions(db.versions)
    ensures InitAsWritten(db).Failure? || InitAsWritten(db).value.1.Migrated?
    ensures EmptyCatalog(db.catalog) && CurrentVersion(db.versions) >= 1 ==> InitAsWritten(db) == Failure(DuplicateSchemaVersion)
  {
    var db1 := RunMigrations(db).0;
    RunMigrationsGating(db);
    if CurrentVersion(db.versions) < 1 {
      AddMissingAppends(AllCombos(), db.catalog.arpeggios);
      if EmptyCatalog(db.catalog) {
        MigrateEmptyAddsAll(db.catalog.arpeggios);
      }
      assert !EmptyCatalog(db1.catalog);
    } else {
      AtCurrentMeansRecorded(db.versions);
    }
  }

  /** Filtering by absence from the empty set keeps everything. */
  lemma {:induction false} FilterAll(cs: seq<Combo>, s: set<Combo>)
    requires s == {}
    ensures |Sorting.Filter(cs, AbsentFrom(s))| == |cs|
  {
    if |cs| > 0 {
      FilterAll(cs[1..], s);
    }
  }

  /** A fresh database is seeded with 252 scales and 252 arpeggios, all disabled with weight
      1.0 and without repeats, gets the default setting when it has none, and records the
      current schema version. */
  lemma InitFresh(db: Db)
    requires EmptyCatalog(db.catalog)
    ensures var (db', rep) := Init(db);
            && rep == Initialized(SeedSize, SeedSize, CurrentSchemaVersion)
            && |db'.catalog.scales| == SeedSize && |db'.catalog.arpeggios| == SeedSize
            && db'.catalog.scales == SeedScales(1) && db'.catalog.arpeggios == SeedArpeggios(1)
            && UniqueIds(db'.catalog.scales) && UniqueIds(db'.catalog.arpeggios)
            && (forall k :: 0 <= k < SeedSize ==> !db'.catalog.scales[k].enabled && !db'.catalog.arpeggios[k].enabled)
            && db'.settings == WithDefaultSetting(db.settings)
            && CurrentVersion(db'.versions) >= CurrentSchemaVersion
  {
    assert db.catalog.scales + SeedScales(1) == SeedScales(1);
    assert db.catalog.arpeggios + SeedArpeggios(1) == SeedArpeggios(1);
    SeedRowsShape(ScaleTypes, 1);
    SeedRowsShape(ArpeggioTypes, 1);
    RecordRaisesVersion(db.versions, CurrentSchemaVersion);
  }

  /** Neither seeded table repeats a (note, accidental, type, octaves) combination. */
  lemma InitFreshDistinct(db: Db, kind: Kind, i: int, j: int)
    requires EmptyCatalog(db.catalog)
    requires 0 <= i < SeedSize && 0 <= j < SeedSize && i != j
    ensures var rows := Init(db).0.catalog.Table(kind);
            ComboOf(rows[i]) != ComboOf(rows[j]) || rows[i].octaves != rows[j].octaves
  {
    InitFresh(db);
    TypesDistinct();
    SeedDistinct(if kind == Scale then ScaleTypes else ArpeggioTypes, 1, i, j);
  }

  /** After a fresh seed nothing is left for the migration to add. */
  lemma InitFreshComplete(db: Db)
    requires EmptyCatalog(db.catalog)
    ensures MigrateV0ToV1(Init(db).0.catalog.arpeggios) == (Init(db).0.catalog.arpeggios, 0)
  {
    InitFresh(db);
    forall c | c in AllCombos() ensures c in OneOctaveCombos(SeedArpeggios(1)) {
      SeedHasOneOctaveArpeggios(1, c);
    }
    AddMissingNoop(AllCombos(), SeedArpeggios(1));
  }

  /** A database with any scale or arpeggio is only migrated: nothing is seeded, the
      settings are untouched, and the counts reported are the ones it then holds. */
  lemma InitGuard(db: Db)
    requires !EmptyCatalog(db.catalog)
    ensures var (db', rep) := Init(db);
            && db' == RunMigrations(db).0
            && db'.catalog.scales == db.catalog.scales
            && db'.settings == db.settings
            && rep.Migrated? && rep.scales == |db'.catalog.scales| && rep.arpeggios == |db'.catalog.arpeggios|
  {
    RunMigrationsGating(db);
  }

  /** The two agree on every database that already has a catalog. */
  lemma InitAsWrittenAgrees(db: Db)
    requires !EmptyCatalog(db.catalog)
    ensures InitAsWritten(db) == Success(Init(db))
  {
    RunMigrationsGating(db);
    AddMissingAppends(AllCombos(), db.catalog.arpeggios);
  }

  /** Initialising twice is the same as initialising once. */
  lemma InitIdempotent(db: Db)
    ensures Init(Init(db).0).0 == Init(db).0
  {
    var once := Init(db).0;
    if EmptyCatalog(db.catalog) {
      InitFresh(db);
      RunMigrationsGating(once);
    } else {
      RunMigrationsGating(db);
      AddMissingAppends(AllCombos(), db.catalog.arpeggios);
      RunMigrationsGating(once);
    }
  }
}
