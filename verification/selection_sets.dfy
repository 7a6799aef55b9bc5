/** Named selection sets (backend/routes/selection_sets.py): snapshots of which scales and
    arpeggios are enabled, which can be renamed, re-captured, deleted, and loaded back into
    the catalog. The store is the `selection_sets` table together with the catalog. */
module SelectionSets {
  import opened Wrappers
  import opened Text
  import opened Models
  import opened Sorting

  datatype SelectionSet = SelectionSet(
    id: int,
    name: string,
    isActive: bool,
    scaleIds: seq<int>,
    arpeggioIds: seq<int>
  )

  datatype Store = Store(sets: seq<SelectionSet>, catalog: Catalog)

  /** 422 from request validation, 404 and 409 from the handlers. */
  datatype SetError = InvalidName | NotFound | Conflict

  datatype UpdateRequest = UpdateRequest(
    name: Option<string>,
    scaleIds: Option<seq<int>>,
    arpeggioIds: Option<seq<int>>,
    updateFromCurrent: bool
  )

  /** What `load_selection_set` reports: the number of rows its two bulk updates matched. */
  datatype LoadReport = LoadReport(scalesEnabled: nat, arpeggiosEnabled: nat)

  // ---------------------------------------------------------------------------
  // Store invariants
  // ---------------------------------------------------------------------------

  predicate AtMostOneActive(sets: seq<SelectionSet>) {
    forall i, j :: 0 <= i < |sets| && 0 <= j < |sets| && sets[i].isActive && sets[j].isActive ==> i == j
  }

  predicate UniqueSetIds(sets: seq<SelectionSet>) {
    forall i, j :: 0 <= i < j < |sets| ==> sets[i].id != sets[j].id
  }

  predicate UniqueNames(sets: seq<SelectionSet>) {
    forall i, j :: 0 <= i < j < |sets| ==> sets[i].name != sets[j].name
  }

  /** The invariant every operation keeps: primary keys, at most one active set, and names
      the handlers keep unique. */
  predicate Valid(st: Store) {
    UniqueSetIds(st.sets) && AtMostOneActive(st.sets) && UniqueNames(st.sets)
  }

  // ---------------------------------------------------------------------------
  // Request validation
  // ---------------------------------------------------------------------------

  /** `SelectionSetCreate.name_must_not_be_empty`: blank names are refused, others are
      stored stripped. */
  function ValidateName(v: string): (r: Result<string, SetError>)
    ensures r.Failure? <==> AllSpace(v)
    ensures r.Failure? ==> r.error == InvalidName
    ensures r.Success? ==> r.value == Strip(v) && r.value != [] && Strip(r.value) == r.value
  {
    StripIdempotent(v);
    var s := Strip(v);
    if s == [] then Failure(InvalidName) else Success(s)
  }

  /** `SelectionSetUpdate.name_must_not_be_empty`: an absent name stays absent. */
  function ValidateOptionalName(v: Option<string>): (r: Result<Option<string>, SetError>)
    ensures r.Failure? <==> v.Some? && AllSpace(v.value)
    ensures r.Success? ==> (r.value.None? <==> v.None?)
    ensures r.Success? && v.Some? ==> r.value == Some(Strip(v.value))
  {
    match v
    case None => Success(None)
    case Some(n) =>
      var s :- ValidateName(n);
      Success(Some(s))
  }

  // ---------------------------------------------------------------------------
  // Queries
  // ---------------------------------------------------------------------------

  /** The ids of some catalog rows, in order. */
  function IdsOf(rows: seq<Row>): (ids: seq<int>)
    ensures |ids| == |rows| && forall k :: 0 <= k < |rows| ==> ids[k] == rows[k].id
  {
    seq(|rows|, k requires 0 <= k < |rows| => rows[k].id)
  }

  /** `[s.id for s in db.query(Scale).filter(Scale.enabled).all()]`. */
  function EnabledIds(rows: seq<Row>): seq<int> {
    IdsOf(Enabled(rows))
  }

  /** The position of the set with id `id`, if there is one. */
  function FindSet(sets: seq<SelectionSet>, id: int): (r: Option<nat>)
    ensures r.None? <==> forall k :: 0 <= k < |sets| ==> sets[k].id != id
    ensures r.Some? ==> r.value < |sets| && sets[r.value].id == id
  {
    if |sets| == 0 then None
    else if sets[0].id == id then Some(0)
    else
      match FindSet(sets[1..], id)
      case None => None
      case Some(k) => Some(k + 1)
  }

  /** Whether some set other than `except` already uses `name`. */
  predicate NameTaken(sets: seq<SelectionSet>, name: string, except: Option<int>) {
    exists k :: 0 <= k < |sets| && sets[k].name == name && Some(sets[k].id) != except
  }

  /** `get_active_selection_set`: the first active set, if any. */
  function ActiveSet(sets: seq<SelectionSet>): (r: Option<SelectionSet>)
    ensures r.None? <==> forall k :: 0 <= k < |sets| ==> !sets[k].isActive
    ensures r.Some? ==> r.value in sets && r.value.isActive
  {
    if |sets| == 0 then None
    else if sets[0].isActive then Some(sets[0])
    else ActiveSet(sets[1..])
  }

  /** Ascending by name: no set has a name above that of a set listed after it. */
  predicate SortedByName(sets: seq<SelectionSet>) {
    forall i, j :: 0 <= i < j < |sets| ==> StrLe(sets[i].name, sets[j].name)
  }

  /** Puts `s` in front of the first set whose name is not below its own. */
  function InsertByName(s: SelectionSet, sets: seq<SelectionSet>): (r: seq<SelectionSet>)
    ensures multiset(r) == multiset(sets) + multiset{s}
  {
    if |sets| == 0 then [s]
    else if StrLe(s.name, sets[0].name) then [s] + sets
    else
      assert sets == [sets[0]] + sets[1..];
      [sets[0]] + InsertByName(s, sets[1..])
  }

  /** `list_selection_sets`: every set, ordered by name. */
  function ListSets(sets: seq<SelectionSet>): (r: seq<SelectionSet>)
    ensures multiset(r) == multiset(sets)
  {
    if |sets| == 0 then []
    else
      assert sets == [sets[0]] + sets[1..];
      InsertByName(sets[0], ListSets(sets[1..]))
  }

  /** Inserting into a listing ordered by name keeps it ordered. */
  lemma {:induction false} InsertByNameSorted(s: SelectionSet, sets: seq<SelectionSet>)
    requires SortedByName(sets)
    ensures SortedByName(InsertByName(s, sets))
  {
    if |sets| > 0 {
      if StrLe(s.name, sets[0].name) {
        forall k | 0 < k < |sets| ensures StrLe(s.name, sets[k].name) {
          StrLeTransitive(s.name, sets[0].name, sets[k].name);
        }
      } else {
        StrLeTotal(s.name, sets[0].name);
        InsertByNameSorted(s, sets[1..]);
        var t := InsertByName(s, sets[1..]);
        forall k | 0 <= k < |t| ensures StrLe(sets[0].name, t[k].name) {
          assert t[k] in multiset(t);
          if t[k] != s {
            assert t[k] in sets[1..];
          }
        }
      }
    }
  }

  /** The listing is ordered by name. */
  lemma {:induction false} ListSetsSorted(sets: seq<SelectionSet>)
    ensures SortedByName(ListSets(sets))
  {
    if |sets| > 0 {
      ListSetsSorted(sets[1..]);
      InsertByNameSorted(sets[0], ListSets(sets[1..]));
    }
  }

  /** A new row gets the next integer primary key, as SQLite assigns it. */
  function NextId(sets: seq<SelectionSet>): (id: int)
    ensures forall k :: 0 <= k < |sets| ==> sets[k].id < id
  {
    if |sets| == 0 then 1
    else
      var rest := NextId(sets[1..]);
      assert forall k :: 1 <= k < |sets| ==> sets[k] == sets[1..][k - 1];
      if sets[0].id + 1 > rest then sets[0].id + 1 else rest
  }

  // ---------------------------------------------------------------------------
  // Operations
  // ---------------------------------------------------------------------------

  /** `create_selection_set`: a new inactive set holding the ids of the currently enabled
      scales and arpeggios, unless the name is blank or taken. */
  function Create(st: Store, rawName: string): (r: Result<(Store, SelectionSet), SetError>)
  {
    var name :- ValidateName(rawName);
    if NameTaken(st.sets, name, None) then Failure(Conflict)
    else
      var s := SelectionSet(NextId(st.sets), name, false,
                            EnabledIds(st.catalog.scales), EnabledIds(st.catalog.arpeggios));
      Success((st.(sets := st.sets + [s]), s))
  }

  /** `update_selection_set`: validation, then lookup, then the name check, then the
      changes. Capturing the current selection overrides explicit id lists. */
  function Update(st: Store, id: int, req: UpdateRequest): (r: Result<Store, SetError>)
  {
    var name :- ValidateOptionalName(req.name);
    match FindSet(st.sets, id)
    case None => Failure(NotFound)
    case Some(k) =>
      if name.Some? && NameTaken(st.sets, name.value, Some(id)) then Failure(Conflict)
      else
        var s := st.sets[k];
        var s1 := if name.Some? then s.(name := name.value) else s;
        var s2 :=
          if req.updateFromCurrent then
            s1.(scaleIds := EnabledIds(st.catalog.scales), arpeggioIds := EnabledIds(st.catalog.arpeggios))
          else
            s1.(scaleIds := req.scaleIds.GetOr(s1.scaleIds), arpeggioIds := req.arpeggioIds.GetOr(s1.arpeggioIds));
        Success(st.(sets := st.sets[k := s2]))
  }

  /** The sets without the one at position `k`. */
  function RemoveAt(sets: seq<SelectionSet>, k: nat): (r: seq<SelectionSet>)
    requires k < |sets|
    ensures |r| == |sets| - 1
    ensures forall j :: 0 <= j < |r| ==> r[j] == (if j < k then sets[j] else sets[j + 1])
  {
    sets[..k] + sets[k + 1..]
  }

  /** `delete_selection_set`. */
  function Delete(st: Store, id: int): (r: Result<Store, SetError>)
  {
    match FindSet(st.sets, id)
    case None => Failure(NotFound)
    case Some(k) => Success(st.(sets := RemoveAt(st.sets, k)))
  }

  function Deactivated(sets: seq<SelectionSet>): (r: seq<SelectionSet>)
    ensures |r| == |sets| && forall k :: 0 <= k < |sets| ==> r[k] == sets[k].(isActive := false)
  {
    seq(|sets|, k requires 0 <= k < |sets| => sets[k].(isActive := false))
  }

  /** `update({"enabled": ...})` on every row of a table: enabled exactly for the ids in `ids`. */
  function EnableExactly(rows: seq<Row>, ids: seq<int>): (r: seq<Row>)
    ensures |r| == |rows|
    ensures forall k :: 0 <= k < |rows| ==> r[k] == rows[k].(enabled := rows[k].id in ids)
  {
    seq(|rows|, k requires 0 <= k < |rows| => rows[k].(enabled := rows[k].id in ids))
  }

  /** `deactivate_selection_sets`: no set active, every scale and arpeggio disabled. */
  function Deactivate(st: Store): Store {
    Store(Deactivated(st.sets),
          Catalog(EnableExactly(st.catalog.scales, []), EnableExactly(st.catalog.arpeggios, [])))
  }

  function HasIdIn(ids: seq<int>): Row -> bool {
    (r: Row) => r.id in ids
  }

  /** The number of rows an `id IN ids` update matches; the update is skipped for an empty list. */
  function MatchedRows(rows: seq<Row>, ids: seq<int>): nat {
    if |ids| == 0 then 0 else |Filter(rows, HasIdIn(ids))|
  }

  /** The catalog once a set is loaded, and the report. */
  function LoadCatalog(c: Catalog, s: SelectionSet): (Catalog, LoadReport) {
    (Catalog(EnableExactly(c.scales, s.scaleIds), EnableExactly(c.arpeggios, s.arpeggioIds)),
     LoadReport(MatchedRows(c.scales, s.scaleIds), MatchedRows(c.arpeggios, s.arpeggioIds)))
  }

  /** `load_selection_set` as written. Every active set is switched off by a bulk update
      that bypasses the session, so the already loaded `selection_set` object still reads
      `is_active == True`; assigning `True` to it again is no change, nothing is flushed for
      it, and a set that was active before the call ends up inactive. */
  function LoadAsWritten(st: Store, id: int): (r: Result<(Store, LoadReport), SetError>)
  {
    match FindSet(st.sets, id)
    case None => Failure(NotFound)
    case Some(k) =>
      var s := st.sets[k];
      var (c, report) := LoadCatalog(st.catalog, s);
      var sets := Deactivated(st.sets);
      var sets' := if s.isActive then sets else sets[k := s.(isActive := true)];
      Success((Store(sets', c), report))
  }

  /** `load_selection_set` as intended: the loaded set is the active one. */
  function Load(st: Store, id: int): (r: Result<(Store, LoadReport), SetError>)
  {
    match FindSet(st.sets, id)
    case None => Failure(NotFound)
    case Some(k) =>
      var s := st.sets[k];
      var (c, report) := LoadCatalog(st.catalog, s);
      Success((Store(Deactivated(st.sets)[k := s.(isActive := true)], c), report))
  }

  // ---------------------------------------------------------------------------
  // Properties
  // ---------------------------------------------------------------------------

  /** Creating fails exactly on a blank name or a name some set already has, in that order. */
  lemma CreateFails(st: Store, rawName: string)
    ensures Create(st, rawName).Failure? <==> (AllSpace(rawName) || NameTaken(st.sets, Strip(rawName), None))
    ensures AllSpace(rawName) ==> Create(st, rawName) == Failure(InvalidName)
    ensures !AllSpace(rawName) && NameTaken(st.sets, Strip(rawName), None) ==> Create(st, rawName) == Failure(Conflict)
  {
  }

  /** A successful creation appends one inactive set under the stripped name and a fresh id,
      and leaves the catalog alone. */
  lemma CreateAppends(st: Store, rawName: string)
    requires Create(st, rawName).Success?
    ensures var (st', s) := Create(st, rawName).value;
            && st'.sets == st.sets + [s] && st'.catalog == st.catalog
            && s.name == Strip(rawName) && !s.isActive
            && (forall k :: 0 <= k < |st.sets| ==> st.sets[k].id != s.id)
  {
  }

  /** Creating keeps ids and names unique and adds no active set. */
  lemma CreateKeepsValid(st: Store, rawName: string)
    requires Valid(st) && Create(st, rawName).Success?
    ensures Valid(Create(st, rawName).value.0)
  {
    var (st', s) := Create(st, rawName).value;
    AppendKeepsValid(st.sets, s);
  }

  /** Appending an inactive set with a fresh id and a fresh name keeps the invariant. */
  lemma AppendKeepsValid(sets: seq<SelectionSet>, s: SelectionSet)
    requires UniqueSetIds(sets) && AtMostOneActive(sets) && UniqueNames(sets)
    requires !s.isActive
    requires forall k :: 0 <= k < |sets| ==> sets[k].id != s.id && sets[k].name != s.name
    ensures UniqueSetIds(sets + [s]) && AtMostOneActive(sets + [s]) && UniqueNames(sets + [s])
  {
    var t := sets + [s];
    assert forall k :: 0 <= k < |sets| ==> t[k] == sets[k];
  }

  /** The ids of the enabled rows are those of the rows that are enabled. */
  lemma {:induction false} EnabledIdsMembers(rows: seq<Row>, id: int)
    ensures id in EnabledIds(rows) <==> exists k :: 0 <= k < |rows| && rows[k].enabled && rows[k].id == id
  {
    if |rows| > 0 {
      EnabledIdsMembers(rows[1..], id);
      var head := if rows[0].enabled then [rows[0]] else [];
      assert Enabled(rows) == head + Enabled(rows[1..]);
      assert EnabledIds(rows) == IdsOf(head) + EnabledIds(rows[1..]);
      assert id in EnabledIds(rows) <==> id in IdsOf(head) || id in EnabledIds(rows[1..]);
      if rows[0].enabled {
        assert IdsOf(head) == [rows[0].id];
      } else {
        assert IdsOf(head) == [];
      }
      if exists k :: 1 <= k < |rows| && rows[k].enabled && rows[k].id == id {
        var k :| 1 <= k < |rows| && rows[k].enabled && rows[k].id == id;
        assert rows[1..][k - 1] == rows[k];
      }
      if exists k :: 0 <= k < |rows| - 1 && rows[1..][k].enabled && rows[1..][k].id == id {
        var k :| 0 <= k < |rows| - 1 && rows[1..][k].enabled && rows[1..][k].id == id;
        assert rows[k + 1] == rows[1..][k];
      }
    }
  }

  /** A created set holds exactly the ids of the rows enabled at the time. */
  lemma CreateCapturesEnabled(st: Store, rawName: string, kind: Kind, id: int)
    requires Create(st, rawName).Success?
    ensures var s := Create(st, rawName).value.1;
            var ids := if kind == Scale then s.scaleIds else s.arpeggioIds;
            var rows := st.catalog.Table(kind);
            id in ids <==> exists k :: 0 <= k < |rows| && rows[k].enabled && rows[k].id == id
  {
    EnabledIdsMembers(st.catalog.Table(kind), id);
  }

  /** Updating reports a blank name first, then a missing set, then a name held by another
      set; on success only the addressed set changes, and only in the provided fields. */
  lemma UpdateSpec(st: Store, id: int, req: UpdateRequest)
    requires Valid(st)
    ensures var r := Update(st, id, req);
            && (req.name.Some? && AllSpace(req.name.value) ==> r == Failure(InvalidName))
            && (!(req.name.Some? && AllSpace(req.name.value)) && FindSet(st.sets, id).None? ==> r == Failure(NotFound))
            && ((FindSet(st.sets, id).Some? && req.name.Some? && !AllSpace(req.name.value)
                 && NameTaken(st.sets, Strip(req.name.value), Some(id))) ==> r == Failure(Conflict))
            && (r.Success? ==>
                  var k := FindSet(st.sets, id).value;
                  var s := st.sets[k];
                  var s' := r.value.sets[k];
                  && r.value.catalog == st.catalog
                  && |r.value.sets| == |st.sets|
                  && (forall j :: 0 <= j < |st.sets| && j != k ==> r.value.sets[j] == st.sets[j])
                  && s'.id == s.id && s'.isActive == s.isActive
                  && s'.name == (if req.name.Some? then Strip(req.name.value) else s.name)
                  && s'.scaleIds == (if req.updateFromCurrent then EnabledIds(st.catalog.scales)
                                     else req.scaleIds.GetOr(s.scaleIds))
                  && s'.arpeggioIds == (if req.updateFromCurrent then EnabledIds(st.catalog.arpeggios)
                                        else req.arpeggioIds.GetOr(s.arpeggioIds))
                  && Valid(r.value))
  {
    var r := Update(st, id, req);
    if r.Success? {
      var k := FindSet(st.sets, id).value;
      var sets' := r.value.sets;
      forall i, j | 0 <= i < j < |sets'| ensures sets'[i].name != sets'[j].name {
        if i != k && j != k {
          assert sets'[i] == st.sets[i] && sets'[j] == st.sets[j];
        }
      }
      assert forall j :: 0 <= j < |sets'| ==> sets'[j].id == st.sets[j].id && sets'[j].isActive == st.sets[j].isActive;
    }
  }

  /** Deleting fails, with not found, exactly when no set has the id. */
  lemma DeleteFails(st: Store, id: int)
    ensures Delete(st, id).Failure? <==> forall k :: 0 <= k < |st.sets| ==> st.sets[k].id != id
    ensures Delete(st, id).Failure? ==> Delete(st, id).error == NotFound
  {
  }

  /** With unique ids, removing the set with id `id` keeps every other set. */
  lemma RemoveAtMembers(sets: seq<SelectionSet>, k: nat, id: int)
    requires UniqueSetIds(sets) && k < |sets| && sets[k].id == id
    ensures forall s :: s in RemoveAt(sets, k) <==> s in sets && s.id != id
  {
    var r := RemoveAt(sets, k);
    forall s ensures s in r <==> s in sets && s.id != id {
      if s in sets && s.id != id {
        var j :| 0 <= j < |sets| && sets[j] == s;
        if j < k { assert r[j] == s; } else { assert r[j - 1] == s; }
      }
    }
  }

  /** A deletion removes exactly the addressed set, keeps the order of the others and the
      catalog, and keeps the invariant. */
  lemma DeleteRemoves(st: Store, id: int)
    requires Valid(st) && Delete(st, id).Success?
    ensures var st' := Delete(st, id).value;
            && st'.catalog == st.catalog
            && |st'.sets| == |st.sets| - 1
            && (forall s :: s in st'.sets <==> s in st.sets && s.id != id)
            && Valid(st')
  {
    var k := FindSet(st.sets, id).value;
    RemoveAtMembers(st.sets, k, id);
  }

  /** After deactivating, no set is active and every scale and arpeggio is disabled; the
      sets are otherwise unchanged. */
  lemma DeactivateSpec(st: Store)
    requires Valid(st)
    ensures var st' := Deactivate(st);
            && ActiveSet(st'.sets).None?
            && (forall k :: 0 <= k < |st.sets| ==> st'.sets[k] == st.sets[k].(isActive := false))
            && |st'.catalog.scales| == |st.catalog.scales| && |st'.catalog.arpeggios| == |st.catalog.arpeggios|
            && (forall k :: 0 <= k < |st.catalog.scales| ==> st'.catalog.scales[k] == st.catalog.scales[k].(enabled := false))
            && (forall k :: 0 <= k < |st.catalog.arpeggios| ==> st'.catalog.arpeggios[k] == st.catalog.arpeggios[k].(enabled := false))
            && Valid(st')
  {
  }

  /** A table in which no row is enabled has no enabled rows to count. */
  lemma {:induction false} NoneEnabled(rows: seq<Row>)
    requires forall k :: 0 <= k < |rows| ==> !rows[k].enabled
    ensures EnabledCount(rows) == 0
  {
    if |rows| > 0 {
      NoneEnabled(rows[1..]);
    }
  }

  /** The rows an `id IN ids` update matches are as many as the rows it leaves enabled. */
  lemma {:induction false} MatchedAreEnabled(rows: seq<Row>, ids: seq<int>)
    ensures |Filter(rows, HasIdIn(ids))| == EnabledCount(EnableExactly(rows, ids))
  {
    if |rows| > 0 {
      MatchedAreEnabled(rows[1..], ids);
      assert EnableExactly(rows, ids)[1..] == EnableExactly(rows[1..], ids);
    }
  }

  /** Loading enables exactly the rows whose ids the set lists, changes nothing else about
      them, and reports as enabled the number of rows it left enabled. */
  lemma LoadCatalogSpec(c: Catalog, s: SelectionSet, kind: Kind)
    ensures var (c', report) := LoadCatalog(c, s);
            var ids := if kind == Scale then s.scaleIds else s.arpeggioIds;
            var n := if kind == Scale then report.scalesEnabled else report.arpeggiosEnabled;
            && |c'.Table(kind)| == |c.Table(kind)|
            && (forall k :: 0 <= k < |c.Table(kind)| ==>
                  c'.Table(kind)[k].enabled == (c.Table(kind)[k].id in ids)
                  && c'.Table(kind)[k] == c.Table(kind)[k].(enabled := c'.Table(kind)[k].enabled))
            && n == EnabledCount(c'.Table(kind))
  {
    var ids := if kind == Scale then s.scaleIds else s.arpeggioIds;
    var rows := c.Table(kind);
    if |ids| == 0 {
      NoneEnabled(EnableExactly(rows, ids));
    } else {
      MatchedAreEnabled(rows, ids);
    }
  }

  /** As intended, a load leaves the loaded set as the only active one. */
  lemma LoadActivates(st: Store, id: int)
    requires Valid(st)
    ensures var r := Load(st, id);
            && (r.Failure? <==> forall k :: 0 <= k < |st.sets| ==> st.sets[k].id != id)
            && (r.Failure? ==> r.error == NotFound)
            && (r.Success? ==>
                  var st' := r.value.0;
                  && Valid(st')
                  && ActiveSet(st'.sets).Some? && ActiveSet(st'.sets).value.id == id
                  && (forall k :: 0 <= k < |st'.sets| ==> (st'.sets[k].isActive <==> st'.sets[k].id == id))
                  && st'.catalog == LoadCatalog(st.catalog, st.sets[FindSet(st.sets, id).value]).0)
  {
    var r := Load(st, id);
    if r.Success? {
      var k := FindSet(st.sets, id).value;
      var sets' := r.value.0.sets;
      assert sets'[k].isActive;
      assert forall j :: 0 <= j < |sets'| ==> sets'[j].id == st.sets[j].id && sets'[j].name == st.sets[j].name;
    }
  }

  /** As written, loading the set that is already active leaves no set active. */
  lemma LoadAsWrittenLosesActive(st: Store, id: int)
    requires Valid(st)
    requires ActiveSet(st.sets).Some? && ActiveSet(st.sets).value.id == id
    ensures LoadAsWritten(st, id).Success?
    ensures ActiveSet(LoadAsWritten(st, id).value.0.sets).None?
  {
    var a := ActiveSet(st.sets).value;
    var j :| 0 <= j < |st.sets| && st.sets[j] == a;
    var k := FindSet(st.sets, id).value;
    assert k == j;
  }

  /** A concrete store showing the difference: one active set, loaded again. */
  lemma LoadAsWrittenExample()
    ensures var st := Store([SelectionSet(1, "Set A", true, [], [])], Catalog([], []));
            && Valid(st)
            && LoadAsWritten(st, 1) == Success((Store([SelectionSet(1, "Set A", false, [], [])], Catalog([], [])), LoadReport(0, 0)))
            && Load(st, 1) == Success((Store([SelectionSet(1, "Set A", true, [], [])], Catalog([], [])), LoadReport(0, 0)))
  {
    var st := Store([SelectionSet(1, "Set A", true, [], [])], Catalog([], []));
    assert FindSet(st.sets, 1) == Some(0);
    assert Deactivated(st.sets) == [SelectionSet(1, "Set A", false, [], [])];
    assert EnableExactly([], []) == [];
    assert Deactivated(st.sets)[0 := SelectionSet(1, "Set A", true, [], [])] == st.sets;
  }

  /** Whichever of the two, a load never leaves two sets active, and it agrees with the
      intended one whenever the set was not active before. */
  lemma LoadAsWrittenAgrees(st: Store, id: int)
    requires Valid(st)
    ensures LoadAsWritten(st, id).Success? ==> AtMostOneActive(LoadAsWritten(st, id).value.0.sets)
    ensures (forall k :: 0 <= k < |st.sets| && st.sets[k].id == id ==> !st.sets[k].isActive)
            ==> LoadAsWritten(st, id) == Load(st, id)
  {
  }
}
