# Arpeggio backend core, modelled in Dafny

This project models the backend of Arpeggio, a practice planner for cello scales and
arpeggios. It covers:

- the practice-set generator: the item weighting, weighted sampling without
  replacement, the weekly-focus slot allocation, the final shuffle and the articulation
  draw;
- recording practice sessions and the practice history;
- named selection sets: create, update, delete, deactivate, load and list;
- the scale endpoints: list with filters, update, bulk enable and bulk articulation;
- the display names and default algorithm configuration of the data model;
- the schema migration to version 1, which adds the 1-octave arpeggios;
- database initialisation: the 252 + 252 seed rows, the default setting and the schema
  version.

The database is a value: a `Catalog` holds the two tables of rows in query order, a
`Store` adds the selection sets, and a `Db` adds the schema-version table and the
settings. Every endpoint is a pure function from the state before to the state after
together with its response. Errors are `Result` values: 404 not found, 409 name
conflict, 422 blank name, 400 invalid mode, and Python's `ZeroDivisionError` in the
weight formula.

Randomness is a stream `rng: nat -> real` of values in [0, 1). Every `random.*` call
consumes one value, in program order, and every drawing function returns its next
cursor. Practice statistics, the current time and stored timestamps are inputs.

Modules, in dependency order:

- `Wrappers`: `Option` and `Result`.
- `Text`: `str.strip`, `str.replace`, integer formatting and parsing, and code-point
  string order.
- `Sorting`: filters, `max`, and a stable sort by key.
- `Models`: rows, display names and the default configuration.
- `Weighting`: `calculate_item_weight`.
- `Sampler`: `weighted_random_choice` and `random.shuffle`.
- `Pools`: `_build_item_data` and `_get_all_weighted_items`.
- `Generator`: `generate_practice_set`.
- `Practice`: the session and history routes.
- `SelectionSets`: the selection-set routes.
- `Scales`: the scale routes.
- `Migrations`: the schema migrations.
- `Initializer`: `init_scales_and_arpeggios`.

The proofs also show a property of the generator as written. The octave-variety
penalty never applies. The pools are built once, while the list of used octaves is
still empty, so `octave_variety` has no effect on any practice set
(`Generator.GenerateIgnoresOctaveVariety`).

## Model

| member | source | states |
|---|---|---|
| Weighting.ResolveWeighting | backend/services/selector.py:25-27 | Each weighting key that is missing falls back to its default: 1.0, 7 and 1. A key that is present is used as given. |
| Weighting.CalculateItemWeight | backend/services/selector.py:18-39 | The weight fails (ZeroDivisionError) exactly when the days factor is zero or the practice count plus the divisor is zero. Otherwise it is the documented formula, with a never-practised item aged 30 days. |
| Weighting.WeightPositive | backend/services/selector.py:18-39 | With positive parameters and a non-negative age, the weight exists and is strictly positive. |
| Weighting.WeightNondecreasingInDays | backend/services/selector.py:33-39 | With everything else fixed, a longer time since practice never lowers the weight. |
| Weighting.WeightNonincreasingInCount | backend/services/selector.py:33-39 | With everything else fixed, a higher practice count never raises the weight. |
| Weighting.NeverPracticedAsThirtyDays | backend/services/selector.py:29-31 | A never-practised item weighs exactly what an item last practised 30 days ago weighs. |
| Weighting.DefaultFreshItemWeight | backend/services/selector.py:25-39 | With the default weighting, a fresh item of static weight 1 weighs 37/7. |
| Sampler.Choose | backend/services/selector.py:65-96 | The result is empty for an empty pool or a count of 0 or less. Otherwise it holds min(count, pool size) items, drawn without replacement from the pool, with one draw per pick. |
| Sampler.CumulativeIndex | backend/services/selector.py:85-91 | The walk stops at the first position whose running sum reaches the draw. It stays at 0 when no running sum reaches the draw. |
| Sampler.DrawWithinTotalIsReached | backend/services/selector.py:84-91 | A draw of at most the total weight is always reached by the walk. |
| Sampler.PickIndexWalks | backend/services/selector.py:79-91 | With a positive total and a draw in [0, 1], the pick is in range and is the first position whose running sum reaches total × u. The `idx = 0` fallback is never taken. |
| Sampler.PickIndexAvoidsZeroWeights | backend/services/selector.py:79-91 | With non-negative weights, a positive total and a positive draw, a zero-weight item is never picked. |
| Sampler.UniformBelowIsFloor | backend/services/selector.py:82 | The `randint` fallback picks position floor(u × n), which is always in range. |
| Sampler.RemoveAt | backend/services/selector.py:93-94 | `pop(idx)` removes exactly one occurrence and keeps the order of the rest. |
| Sampler.ChooseDistinct | backend/services/selector.py:72-96 | Picks from a pool with distinct keys have distinct keys. Every picked key is a key of the pool. |
| Sampler.Shuffle | backend/services/selector.py:263 | `random.shuffle` returns a permutation of its input and consumes one draw per position after the first. |
| Sampler.ShuffleKeys | backend/services/selector.py:263 | Shuffling keeps the set of keys, and keeps them distinct. |
| Sampler.ShuffleTwo | backend/services/selector.py:263 | Two items are exchanged exactly when the single draw is below one half. |
| Pools.TargetBpm | backend/services/selector.py:111 | A stored non-zero target is kept. A missing target or a target of 0 becomes the default tempo. |
| Pools.BuildAllKeys | backend/services/selector.py:106-113 | Each built item carries its row's id and its table's type, so the built items of one table have distinct keys. |
| Pools.RowWeight | backend/services/selector.py:141-144 | A row's weight fails exactly when the formula fails for its statistics. |
| Pools.OctavePenalty | backend/services/selector.py:143-144 | The formula's weight is halved exactly when octave variety is on and the row's octave count has been used. |
| Pools.Candidates | backend/services/selector.py:137-140 | Every row the loop reaches is enabled and not excluded, and every such row of the table is reached. |
| Pools.CandidatesAreFilter | backend/services/selector.py:137-140 | The loop reaches the table filtered by "enabled and not excluded": every admitted row, in table order and with its multiplicity, and no other row. |
| Pools.CandidatesAreEnabled | backend/services/selector.py:132-140 | With nothing excluded, the loop reaches exactly the enabled rows. |
| Pools.SplitRows | backend/services/selector.py:138-152 | Splitting one table succeeds exactly when every admitted row has a weight. |
| Pools.SplitRowsItems | backend/services/selector.py:146-152 | Each pool receives exactly the built items of the admitted rows whose focus flag matches that pool, in table order. |
| Pools.SplitRowsWeights | backend/services/selector.py:141-152 | Each pool entry carries the weight of its own row. |
| Pools.GetAllWeightedItems | backend/services/selector.py:116-172 | Building the pools fails exactly when some enabled scale or arpeggio has no weight. |
| Pools.PoolItems | backend/services/selector.py:136-172 | Each pool holds the scales' share followed by the arpeggios' share. |
| Pools.PoolFlags | backend/services/selector.py:146-152 | Every focus-pool item has `is_weekly_focus` true. Every other item has it false. |
| Pools.FocusOffEmptiesFocusPool | backend/services/selector.py:146 | With weekly focus off, the focus pool is empty. |
| Pools.SharesPartition | backend/services/selector.py:149-152 | The two shares of a table together are a rearrangement of its admitted rows. |
| Pools.PoolSizes | backend/services/selector.py:136-172 | The two pools together have one entry per admitted row of either table. |
| Pools.PoolKeysDistinct | backend/services/selector.py:136-172 | When each table's ids are unique, no two pool entries share a `(type, id)` pair. |
| Pools.PoolKeysEnabled | backend/services/selector.py:137-155 | Every pool entry is keyed by an enabled row of its table. |
| Pools.OctaveVarietyInertWithoutUsedOctaves | backend/services/selector.py:143-144 | While no octave has been used, switching octave variety off changes no pool. |
| Generator.ResolveSettings | backend/services/selector.py:187-200 | A stored value is used when present, for every key the generator reads. A total of 0 or less becomes 5. A missing key falls back to the generator's default: octave variety on, 60 and 72 bpm, focus off with no keys or types and probability 80, and 50 percent slurred. |
| Generator.ResolveStoredSettings | backend/services/selector.py:187-200 | Settings with a positive total that are stored in full are read back unchanged. |
| Generator.DefaultSettings | backend/services/selector.py:10-15 | With nothing stored, the generator runs with the values of the default configuration. |
| Generator.RoundHalfEven | backend/services/selector.py:220 | `round` returns an integer within one half of its argument, and on a tie the even one. |
| Generator.RoundIsNearest | backend/services/selector.py:220 | No integer is nearer to the argument than its rounding. |
| Generator.FocusSlotsBounds | backend/services/selector.py:220-221 | With a probability between 0 and 100, the focus slots lie between 0 and the set size. |
| Generator.Exclude | backend/services/selector.py:233-235 | Filtering out selected ids keeps only entries whose key is not selected, in order. |
| Generator.ExcludeSize | backend/services/selector.py:233-235 | From a pool with distinct keys, the filter removes one entry per excluded key the pool holds. |
| Generator.ExcludeNothing | backend/services/selector.py:233-235 | Excluding keys that no entry has leaves the pool unchanged. |
| Generator.PhaseOneFlagged | backend/services/selector.py:223-227 | Phase 1 picks focus items only, as many as the focus slots or focus items allow. |
| Generator.PhaseTwoFresh | backend/services/selector.py:229-240 | Phase 2 picks distinct non-focus items, none of them picked in phase 1. |
| Generator.PhaseTwoSize | backend/services/selector.py:232-236 | Phase 2 loses nothing to the exclusion, because phase 1 picked only focus items. |
| Generator.FillKeepsSelected | backend/services/selector.py:242-254 | The fallback only appends: earlier picks stay in front, in order. |
| Generator.FillSize | backend/services/selector.py:242-254 | The fallback completes the set to the total, or to every pool entry there is. |
| Generator.FillDistinct | backend/services/selector.py:242-254 | The fallback keeps a selection of distinct pool keys distinct. |
| Generator.SelectedSize | backend/services/selector.py:220-240 | Phases 1 and 2 never overfill the set, given a probability between 0 and 100. |
| Generator.FocusAssemblyLength | backend/services/selector.py:218-254 | Slot allocation yields min(total, size of both pools) items. |
| Generator.FocusAssemblyDistinct | backend/services/selector.py:218-254 | Slot allocation never picks the same `(type, id)` twice, and picks only pool items. |
| Generator.FocusFirst | backend/services/selector.py:223-227 | In focus mode the set opens with the phase-1 picks, all of them focus items. |
| Generator.FocusOverfill | backend/services/selector.py:220-227 | With a probability of 200 percent and a total of 1, two items are selected. |
| Generator.AssembleLength | backend/services/selector.py:218-261 | In either mode the pre-shuffle selection has min(total, size of both pools) items. |
| Generator.AssembleDistinct | backend/services/selector.py:218-261 | The pre-shuffle selection has distinct keys, all of them keys of the pools. |
| Generator.AssembleCursor | backend/services/selector.py:218-261 | The assembly consumes exactly one draw per selected item. |
| Generator.Articulate | backend/services/selector.py:264-267 | Each item keeps its place and is slurred exactly when its draw × 100 is below the slurred percentage. |
| Generator.AllSlurredAtFullPercent | backend/services/selector.py:264-267 | At 100 percent or more, every item is slurred. |
| Generator.NoneSlurredAtZeroPercent | backend/services/selector.py:264-267 | At 0 percent or less, no item is slurred. |
| Generator.SlurredMonotone | backend/services/selector.py:264-267 | Raising the slurred percentage never turns a slurred item separate. |
| Generator.GenerateFails | backend/services/selector.py:175-216 | Generation fails exactly when some enabled row's weight divides by zero. |
| Generator.ProduceShape | backend/services/selector.py:263-269 | The shuffle only reorders the assembled selection. The item at position k of an m-item set is slurred exactly when draw (m + (m − 1) + k) × 100 is below the percentage: m draws for the picks and m − 1 for the swaps come first. |
| Generator.GenerateShape | backend/services/selector.py:175-269 | A successful run returns a reordering of the selection assembled from the pools that the settings build. Each item's articulation is decided by its own draw. |
| Generator.ProduceLength | backend/services/selector.py:218-268 | The returned set has the configured size, or every pooled item when there are fewer. |
| Generator.ProduceKeys | backend/services/selector.py:218-268 | The returned set has distinct keys, all of them keys of the pools. |
| Generator.GenerateLength | backend/services/selector.py:175-269 | The practice set has min(total_items, enabled scales + enabled arpeggios) items. |
| Generator.GenerateKeys | backend/services/selector.py:175-269 | No `(type, id)` repeats in a practice set. Every item is an enabled scale or arpeggio. |
| Generator.GenerateIgnoresOctaveVariety | backend/services/selector.py:202-216 | Setting `octave_variety` to false changes no practice set, because the used-octave list is empty when the pools are built. |
| Models.EnabledMembers | backend/routes/practice.py:117 | The `enabled` query returns exactly the enabled rows of the table. |
| Models.AccidentalSymbol | backend/models.py:26 | "flat" maps to ♭ and "sharp" maps to ♯. Anything else, including a missing accidental, maps to the empty string. |
| Models.ScaleNamePlural | backend/models.py:28 | A scale name ends in "s" exactly when the scale spans more than one octave. |
| Models.ArpeggioNameAlwaysPlural | backend/models.py:46 | An arpeggio name always ends in "octaves". |
| Models.ScaleNameExample | backend/tests/test_practice.py:152 | C major over two octaves is named "C major - 2 octaves". |
| Models.ScaleNameDistinguishesOctaves | backend/models.py:25-28 | Two scales with the same note, accidental and type but different octave counts get different names. |
| Models.ArpeggioNameDistinguishesOctaves | backend/models.py:44-46 | Two arpeggios with the same note, accidental and type but different octave counts get different names. |
| Models.DefaultConfig | backend/models.py:107-149 | Every key is present. The four slots' percentages lie in 0..100 and add up to 100. Weekly focus is off with no keys or types, 5 items, 50 percent slurred, and weighting 1.0/7/1. |
| Text.Strip | backend/routes/selection_sets.py:21-23 | `strip` returns the whitespace-free infix of the input. It is empty exactly when the input is all whitespace. |
| Text.StripIdempotent | backend/routes/selection_sets.py:18-23 | Stripping a stripped name changes nothing. |
| Text.ReplaceChar | backend/models.py:27 | `replace("_", " ")` changes every underscore and nothing else. |
| Text.IntToStringRoundTrip | backend/models.py:28 | Formatting an integer gives a literal that parses back to that integer. |
| Text.IntToStringInjective | backend/models.py:28 | Different integers format differently. |
| Text.StrLeTotal | backend/routes/selection_sets.py:56 | Any two names are ordered one way or the other. |
| Text.StrLeTransitive | backend/routes/selection_sets.py:56 | Name order is transitive. |
| Text.StrLeAntisymmetric | backend/routes/selection_sets.py:56 | Two names ordered both ways are equal. |
| Sorting.MaxOf | backend/routes/practice.py:132 | `max` of a non-empty list is an element of it and bounds every element. The model returns None for an empty list. |
| Sorting.FilterMembers | backend/routes/practice.py:126 | A list comprehension keeps exactly the elements that pass its test. |
| Sorting.SortBy | backend/routes/practice.py:192 | Sorting returns a permutation of its input. |
| Sorting.SortBySorted | backend/routes/practice.py:192 | The sort orders by key, ascending. |
| Sorting.SortByStable | backend/routes/practice.py:192 | The sort is stable: elements with equal keys keep their input order. |
| Sorting.SortBySortedInput | backend/routes/practice.py:192 | Sorting a list that is already ordered changes nothing. |
| Practice.StoredEntry | backend/routes/practice.py:78-94 | An entry counts as practised exactly when any of its three practice flags is set. Every other field is copied from the request, with the session's id and time. |
| Practice.CreatePracticeSession | backend/routes/practice.py:68-107 | One entry is stored per request item, in order. The response reports the request size and the number of practised entries, which never exceeds it. |
| Practice.PracticedCountMatchesFlags | backend/routes/practice.py:75-97 | The practised count equals the number of request items with at least one practice flag. |
| Practice.ItemHistory | backend/routes/practice.py:118-151 | A history row gives the item's type, id, name and target. It never has more practices than sessions. It has a last-practised time exactly when it has a practice, and a highest BPM only when it has a last-practised time. |
| Practice.LastPracticedIsLatest | backend/routes/practice.py:130-132 | No practised entry of the item is later than the last-practised time. |
| Practice.LastPracticedAttained | backend/routes/practice.py:130-132 | The last-practised time is the time of some practised entry of the item. |
| Practice.MaxBpmIsHighest | backend/routes/practice.py:134-138 | No practised entry of the item recorded a BPM above the reported highest. |
| Practice.MaxBpmAttained | backend/routes/practice.py:134-138 | The highest BPM is the BPM of some practised entry of the item. |
| Practice.NoBpmWithoutRecords | backend/routes/practice.py:134-138 | If no practised entry of the item recorded a BPM, there is no highest BPM. |
| Practice.RecordingAddsCounts | backend/routes/practice.py:119-126 | Recording more entries adds exactly the new entries for the item to its session and practice counts. |
| Practice.HistorySorted | backend/routes/practice.py:191-192 | The history is ordered by times practised, ascending. |
| Practice.HistoryStable | backend/routes/practice.py:191-192 | Items practised equally often keep their order: scales before arpeggios, each in table order. |
| Practice.HistoryLength | backend/routes/practice.py:113-189 | The history has one row per enabled item of each requested kind. An unknown `item_type` gives an empty history. |
| Practice.HistoryRows | backend/routes/practice.py:115-189 | Every history row summarises an enabled item of a requested kind, and every such item has a row. |
| SelectionSets.ValidateName | backend/routes/selection_sets.py:18-23 | A blank name is refused. Any other name is stored stripped, and it is not empty. |
| SelectionSets.ValidateOptionalName | backend/routes/selection_sets.py:32-37 | A missing name stays missing and a blank name is refused. Any other name is stripped. |
| SelectionSets.ListSets | backend/routes/selection_sets.py:53-57 | The listing holds every set exactly once. |
| SelectionSets.ListSetsSorted | backend/routes/selection_sets.py:53-57 | The listing is ordered by name. |
| SelectionSets.InsertByNameSorted | backend/routes/selection_sets.py:56 | Inserting into a name-ordered listing keeps it ordered. |
| SelectionSets.CreateFails | backend/routes/selection_sets.py:60-69 | Creation fails exactly on a blank name (422) or on a name another set already has (409), checked in that order. |
| SelectionSets.CreateAppends | backend/routes/selection_sets.py:60-82 | A successful creation appends one inactive set with a fresh id and the stripped name. |
| SelectionSets.CreateKeepsValid | backend/routes/selection_sets.py:60-82 | Creation keeps ids and names unique, and keeps at most one set active. |
| SelectionSets.CreateCapturesEnabled | backend/routes/selection_sets.py:70-78 | A new set lists exactly the ids of the scales and arpeggios enabled at the time. |
| SelectionSets.ActiveSet | backend/routes/selection_sets.py:85-89 | The reply is an active set, or none exactly when no set is active. |
| SelectionSets.FindSet | backend/routes/selection_sets.py:97-99 | The lookup finds a set with the id, or reports none exactly when no set has it. |
| SelectionSets.UpdateSpec | backend/routes/selection_sets.py:92-129 | An update fails for a blank name, then for a missing id, then for a name another set has, in that order. Otherwise it renames and replaces the id lists, or re-captures them from the catalog, and touches no other set. |
| SelectionSets.DeleteFails | backend/routes/selection_sets.py:132-137 | A deletion fails with not found exactly when no set has the id. |
| SelectionSets.DeleteRemoves | backend/routes/selection_sets.py:132-141 | A deletion removes exactly the addressed set. Every other set remains, and the invariant holds. |
| SelectionSets.DeactivateSpec | backend/routes/selection_sets.py:144-153 | Afterwards no set is active and every scale and arpeggio is disabled. Nothing else changes. |
| SelectionSets.MatchedAreEnabled | backend/routes/selection_sets.py:173-187 | The rows an `id IN` update matches are as many as the rows it leaves enabled. |
| SelectionSets.LoadCatalogSpec | backend/routes/selection_sets.py:168-187 | A load enables exactly the rows whose ids the set lists and changes nothing else in the catalog. Each reported count is the number of rows then enabled. |
| SelectionSets.LoadActivates | backend/routes/selection_sets.py:156-198 | A load fails only for a missing id. Otherwise the loaded set is the only active one, and the catalog is loaded from it. |
| SelectionSets.LoadAsWrittenLosesActive | backend/routes/selection_sets.py:163-190 | As written, loading the set that is already active leaves no set active. |
| SelectionSets.LoadAsWrittenExample | backend/routes/selection_sets.py:163-190 | A single active set "Set A", loaded again, ends inactive. |
| SelectionSets.LoadAsWrittenAgrees | backend/routes/selection_sets.py:156-198 | As written, a load never leaves two sets active. It agrees with the corrected load whenever the loaded set was inactive. |
| Scales.NewTarget | backend/routes/scales.py:98-100 | A positive target is stored, 0 or less clears the target, and a missing one keeps the current value. |
| Scales.NewMode | backend/routes/scales.py:101-104 | A valid requested mode is stored. An unknown mode is ignored silently. |
| Scales.ApplyUpdate | backend/routes/scales.py:94-104 | Only the four updatable fields change. A missing field keeps its value. |
| Scales.EmptyUpdateKeepsRow | backend/routes/scales.py:94-104 | An update with no fields changes nothing. |
| Scales.UpdateIdempotent | backend/routes/scales.py:94-104 | Applying the same update twice is the same as applying it once. |
| Scales.UpdateKeepsRowValid | backend/routes/scales.py:98-104 | An update never stores a non-positive target or an unknown mode. |
| Scales.FindRow | backend/routes/scales.py:90 | The lookup finds the first row with the id, or reports none exactly when no row has it. |
| Scales.UpdateScaleSpec | backend/routes/scales.py:83-120 | Updating a missing id fails with not found. Otherwise only that row changes, and the reply is the updated row. |
| Scales.BulkEnable | backend/routes/scales.py:123-135 | Listed rows get the requested flag and the others are untouched. So a row is enabled afterwards exactly when it was listed with `enabled` true, or was unlisted and already enabled. |
| Scales.BulkEnableCount | backend/routes/scales.py:129-135 | The reported count is the number of rows whose id is listed. |
| Scales.BulkEnableListed | backend/routes/scales.py:129-133 | Every listed row carries the requested flag afterwards. |
| Scales.BulkEnableIdempotent | backend/routes/scales.py:123-135 | Repeating the same bulk request leaves the table as the first one left it. |
| Scales.BulkArticulation | backend/routes/scales.py:138-157 | An unknown mode is refused (400) before anything changes. Otherwise the listed rows get the mode. |
| Scales.BulkArticulationKeepsModesValid | backend/routes/scales.py:144-155 | A bulk articulation update keeps every mode valid. |
| Scales.GetScalesMembers | backend/routes/scales.py:53-62 | A row is listed exactly when it is in the table and passes every given filter. An empty string or 0 counts as no filter. |
| Scales.GetScalesUnfiltered | backend/routes/scales.py:55-60 | With no filter, or only an empty note or a zero octave count, every row is listed. |
| Scales.EnabledFilterSplits | backend/routes/scales.py:61-62 | Together, the enabled listing and the disabled listing have as many rows as the table. |
| Migrations.ConstantsDistinct | backend/services/migrations.py:22-24 | The note, accidental and arpeggio-type lists have no repeats. |
| Migrations.CurrentVersion | backend/services/migrations.py:27-42 | The version is 0 when there is no table or no row. Otherwise it is the largest recorded version. |
| Migrations.RecordRaisesVersion | backend/services/migrations.py:45-49 | Recording a version makes the current version the larger of the old one and the new one. |
| Migrations.AllCombos | backend/services/migrations.py:69-72 | The three loops visit 84 combinations, notes outermost. |
| Migrations.AllCombosDistinct | backend/services/migrations.py:69-72 | The loops visit no combination twice. |
| Migrations.NewRows | backend/services/migrations.py:74-81 | A new row is a disabled arpeggio of weight 1.0 for its combination. Ids are consecutive. |
| Migrations.AddMissingAppends | backend/services/migrations.py:52-86 | The migration keeps every existing row in front and appends as many rows as it reports, at most one per combination. Ids stay unique. |
| Migrations.AddMissingRows | backend/services/migrations.py:73-83 | Every added row is a disabled 1-octave arpeggio of weight 1.0 for a combination that had none. |
| Migrations.AddMissingCovers | backend/services/migrations.py:62-83 | Every combination that lacked a 1-octave arpeggio gets one. |
| Migrations.AddMissingCompletes | backend/services/migrations.py:52-86 | Afterwards every combination has a 1-octave arpeggio. |
| Migrations.AddMissingNoop | backend/services/migrations.py:62-86 | When nothing is missing, the migration adds 0 rows and changes nothing. |
| Migrations.MigrationIdempotent | backend/services/migrations.py:1-6 | Running the v1 migration a second time adds 0 rows and changes nothing. |
| Migrations.RunMigrationsGating | backend/services/migrations.py:89-119 | The migration is applied exactly when the database is below version 1. Afterwards the recorded version is at least 1, and scales and settings are untouched. |
| Migrations.RunMigrationsTwice | backend/services/migrations.py:89-119 | Running the migrations a second time applies nothing and changes nothing. |
| Initializer.SeedTable | backend/services/initializer.py:43-56 | A seeded table has 252 rows, one per loop step, with consecutive ids. |
| Initializer.SeedRowsShape | backend/services/initializer.py:47-54 | Every seeded row is disabled with weight 1.0, and the ids are distinct. |
| Initializer.SeedDistinct | backend/services/initializer.py:43-72 | No seeded table repeats a (note, accidental, type, octaves) combination. |
| Initializer.SeedHasOneOctaveArpeggios | backend/services/initializer.py:59-72 | The arpeggio seed already holds every 1-octave arpeggio the migration would add. |
| Initializer.WithDefaultSetting | backend/services/initializer.py:74-78 | The default configuration is added only when no `selection_algorithm` setting exists. Existing settings are kept. |
| Initializer.InitAsWrittenSkipsSeed | backend/services/initializer.py:25-37 | As written, a fresh unversioned database ends with no scales and only the 84 1-octave arpeggios, and is reported as migrated. |
| Initializer.InitAsWrittenNeverSeeds | backend/services/initializer.py:25-85 | As written, initialisation never reports a seeded database. If the catalog is empty at version 1 or above, it fails on the schema-version key. |
| Initializer.InitFresh | backend/services/initializer.py:39-94 | An empty database gets 252 disabled scales and 252 disabled arpeggios with unique ids. It also gets the default setting if it has none, and records the current schema version. |
| Initializer.InitFreshDistinct | backend/services/initializer.py:43-72 | After a fresh seed, neither table repeats a combination. |
| Initializer.InitFreshComplete | backend/services/initializer.py:59-72 | After a fresh seed, the migration has nothing left to add. |
| Initializer.InitGuard | backend/services/initializer.py:28-37 | A database with any row is only migrated. Its settings are untouched, and the counts it reports are the ones it then holds. |
| Initializer.InitAsWrittenAgrees | backend/services/initializer.py:25-37 | On every database that already has a catalog, the written and corrected initialisations agree. |
| Initializer.InitIdempotent | backend/services/initializer.py:14-94 | Initialising twice gives the same database as initialising once. |

## Left out

- Database access, sessions, commits and the ORM are left out. Each query is a function
  of the table values, and each `update(..., synchronize_session=False)` is a bulk
  function.
- Practice statistics (`get_practice_stats`) and the current time are inputs. The
  statistics are a function from item to count and age, and timestamps are integers.
  `datetime.utcnow` and the day arithmetic are not modelled.
- Floats are modelled as exact reals. Rounding of the IEEE arithmetic is not modelled;
  the weight formula, the uniform draw and the percentage comparison are exact.
- Each `random.*` call is one value in [0, 1) from the stream. `randint` and the
  `randbelow` calls inside `shuffle` become floor(u × n). CPython's bit-level generator
  is not modelled.
- The configuration keys `variation`, `slots`, `scale_bpm_unit`, `arpeggio_bpm_unit`
  and `weekly_focus.categories` are not read by the generator. They appear only in the
  default configuration.
- `articulation_mode` is stored and updated, but the generator does not consult it, so
  neither does the model.
- The arpeggio routes (backend/routes/arpeggios.py) and the settings routes
  (backend/routes/settings.py) are not part of this model. Only the scale routes are
  modelled.
- HTTP status codes become error constructors. Response shapes are reduced to the
  fields the contracts talk about.
- The `SelectionSet` table and the `articulation_mode` column are not in the model
  file. They are modelled from the routes that use them, with "both" as the column
  default that the articulation tests rely on.
- `get_current_version` inspects the schema. The model uses a `VersionTable` value that
  is either missing or holds the recorded versions.
- Primary keys are a precondition (`UniqueIds`) wherever a property depends on them. The
  database enforces them, so the model does not re-derive them.
- Generator.ResolveSettings: the stored settings are typed values here. The source
  passes the stored JSON through `int()`, `bool()` and `float()`, so a total of 7.9
  becomes 7 and the string "false" counts as true for octave variety. Those coercions
  are not modelled.
- Scales.GetScales: the `order_by(note, accidental, type, octaves)` of the listing is
  not modelled. The contract is about membership and table order, not the database's
  sort.
- SelectionSets.ListSets: ties between equal names are not ordered. Names are unique
  under the store invariant, so no ties arise.
- Generator.AssembleLength and Generator.GenerateLength assume a weekly-focus probability
  between 0 and 100. Outside that range the set can hold more than `total_items` items,
  as Generator.FocusOverfill shows.
- Practice.CreatePracticeSession: the session row's own id and creation time are
  parameters, not values assigned by the database.
- Weighting.CalculateItemWeight takes the statistics as given. A negative age, which a
  clock moving backwards could produce, is allowed by the formula and is not ruled out.
- Initializer.InitAsWrittenNeverSeeds: assumes every recorded version is one this code
  defines (`KnownVersions`). A database that records a later version is not covered.

## Findings

| source | as written | input that shows it | evidently intended | confidence | as-written member | corrected member |
|---|---|---|---|---|---|---|
| backend/services/initializer.py:25-37 | `init_scales_and_arpeggios` runs the migrations before its "only when empty" guard. On an unversioned database, the v1 migration inserts the 84 1-octave arpeggios and records version 1, so the guard sees a non-empty catalog and skips seeding. If the catalog is empty at version 1, the seed would insert schema version 1 a second time, which violates the table's primary key. The seed branch therefore never completes. Application startup (backend/main.py:14-20) also runs the migrations first. | A fresh database with no tables and no rows. | A fresh database is seeded with all 252 scales and 252 arpeggios and records the schema version once. | not executed | Initializer.InitAsWrittenSkipsSeed | Initializer.InitFresh |
| backend/routes/selection_sets.py:163-190 | `load_selection_set` clears `is_active` on every active set with a bulk update that does not synchronise the session, then sets `selection_set.is_active = True` on the ORM object. When the set being loaded was already active, the object still holds `True`, so the assignment records no change and no UPDATE is issued. The bulk update leaves the set inactive. | Store with one set "Set A", active; load it again. | The loaded set is the active one afterwards, whether or not it was active before. | not executed | SelectionSets.LoadAsWrittenLosesActive | SelectionSets.LoadActivates |
