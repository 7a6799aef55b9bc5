/** The scale endpoints (backend/routes/scales.py): listing with filters, the per-scale
    field update, and the two bulk updates. A table is a sequence of rows in id order. */
module Scales {
  import opened Wrappers
  import opened Models
  import opened Sorting

  /** 404 from an update of a missing id, 400 from an unknown articulation mode. */
  datatype ScaleError = NotFound | InvalidMode

  /** The body of `PUT /scales/{id}`: every field is optional. */
  datatype ScaleUpdate = ScaleUpdate(
    enabled: Option<bool>,
    weight: Option<real>,
    targetBpm: Option<int>,
    articulationMode: Option<string>
  )

  /** The query string of `GET /scales`. */
  datatype ScaleQuery = ScaleQuery(
    note: Option<string>,
    category: Option<string>,
    octaves: Option<int>,
    enabled: Option<bool>
  )

  /** The articulation modes a scale may have. */
  predicate ValidMode(m: string) {
    m == "both" || m == "slurred_only" || m == "separate_only"
  }

  /** A stored target tempo is either absent or positive. */
  predicate ValidTarget(t: Option<int>) {
    t.None? || t.value > 0
  }

  /** Everything about a row except the four fields an update may touch. */
  predicate SameIdentity(a: Row, b: Row) {
    a.id == b.id && a.note == b.note && a.accidental == b.accidental
    && a.category == b.category && a.octaves == b.octaves
  }

  // ---------------------------------------------------------------------------
  // Update of one scale
  // ---------------------------------------------------------------------------

  /** The tempo an update leaves: a positive value is stored, zero or below clears it,
      absence keeps it. */
  function NewTarget(current: Option<int>, requested: Option<int>): (t: Option<int>)
    ensures ValidTarget(current) ==> ValidTarget(t)
    ensures requested.None? ==> t == current
    ensures requested.Some? ==> (t.Some? <==> requested.value > 0)
    ensures t.Some? && requested.Some? ==> t.value == requested.value
  {
    match requested
    case None => current
    case Some(v) => if v > 0 then Some(v) else None
  }

  /** The mode an update leaves: an unknown requested mode is ignored. */
  function NewMode(current: string, requested: Option<string>): (m: string)
    ensures ValidMode(current) ==> ValidMode(m)
    ensures m == current || (requested.Some? && ValidMode(requested.value) && m == requested.value)
    ensures requested.Some? && ValidMode(requested.value) ==> m == requested.value
  {
    match requested
    case None => current
    case Some(v) => if ValidMode(v) then v else current
  }

  /** The fields of one row after an update. */
  function ApplyUpdate(r: Row, u: ScaleUpdate): (r': Row)
    ensures SameIdentity(r, r')
    ensures r'.enabled == u.enabled.GetOr(r.enabled)
    ensures r'.weight == u.weight.GetOr(r.weight)
  {
    r.(enabled := u.enabled.GetOr(r.enabled),
       weight := u.weight.GetOr(r.weight),
       targetBpm := NewTarget(r.targetBpm, u.targetBpm),
       articulationMode := NewMode(r.articulationMode, u.articulationMode))
  }

  /** An update that provides nothing changes nothing. */
  lemma EmptyUpdateKeepsRow(r: Row)
    ensures ApplyUpdate(r, ScaleUpdate(None, None, None, None)) == r
  {
  }

  /** Sending the same update twice is the same as sending it once. */
  lemma UpdateIdempotent(r: Row, u: ScaleUpdate)
    ensures ApplyUpdate(ApplyUpdate(r, u), u) == ApplyUpdate(r, u)
  {
  }

  /** An update never stores a non-positive tempo or an unknown mode. */
  lemma UpdateKeepsRowValid(r: Row, u: ScaleUpdate)
    requires ValidTarget(r.targetBpm) && ValidMode(r.articulationMode)
    ensures ValidTarget(ApplyUpdate(r, u).targetBpm) && ValidMode(ApplyUpdate(r, u).articulationMode)
  {
  }

  /** The position of the first row with id `id`, as `.filter(Scale.id == id).first()`. */
  function FindRow(rows: seq<Row>, id: int): (r: Option<nat>)
    ensures r.None? <==> forall k :: 0 <= k < |rows| ==> rows[k].id != id
    ensures r.Some? ==> r.value < |rows| && rows[r.value].id == id
    ensures r.Some? ==> forall k :: 0 <= k < r.value ==> rows[k].id != id
  {
    if |rows| == 0 then None
    else if rows[0].id == id then Some(0)
    else
      match FindRow(rows[1..], id)
      case None => None
      case Some(k) => Some(k + 1)
  }

  /** `update_scale`: the table after the update, and the updated row. */
  function UpdateScale(rows: seq<Row>, id: int, u: ScaleUpdate): (r: Result<(seq<Row>, Row), ScaleError>)
  {
    match FindRow(rows, id)
    case None => Failure(NotFound)
    case Some(k) =>
      var row := ApplyUpdate(rows[k], u);
      Success((rows[k := row], row))
  }

  /** Updating a missing id fails; otherwise only the row with that id changes, and the
      returned row is the stored one. */
  lemma UpdateScaleSpec(rows: seq<Row>, id: int, u: ScaleUpdate)
    requires UniqueIds(rows)
    ensures var r := UpdateScale(rows, id, u);
            && (r.Failure? <==> forall k :: 0 <= k < |rows| ==> rows[k].id != id)
            && (r.Failure? ==> r.error == NotFound)
            && (r.Success? ==>
                  var (rows', row) := r.value;
                  && |rows'| == |rows|
                  && row.id == id && row in rows'
                  && UniqueIds(rows')
                  && forall k :: 0 <= k < |rows| ==>
                       rows'[k] == (if rows[k].id == id then ApplyUpdate(rows[k], u) else rows[k]))
  {
    var r := UpdateScale(rows, id, u);
    if r.Success? {
      var k := FindRow(rows, id).value;
      var (rows', row) := r.value;
      assert rows'[k] == row;
      assert forall j :: 0 <= j < |rows| ==> rows'[j].id == rows[j].id;
    }
  }

  // ---------------------------------------------------------------------------
  // Bulk updates
  // ---------------------------------------------------------------------------

  function InIds(ids: seq<int>): Row -> bool {
    (r: Row) => r.id in ids
  }

  /** The number of rows an `id IN ids` update matches. */
  function Matched(rows: seq<Row>, ids: seq<int>): nat {
    |Filter(rows, InIds(ids))|
  }

  /** `bulk_enable_scales`: the listed rows get the flag; the count of rows matched. */
  function BulkEnable(rows: seq<Row>, ids: seq<int>, enabled: bool): (r: (seq<Row>, nat))
    ensures |r.0| == |rows|
    ensures forall k :: 0 <= k < |rows| ==>
              r.0[k] == (if rows[k].id in ids then rows[k].(enabled := enabled) else rows[k])
  {
    (seq(|rows|, k requires 0 <= k < |rows| => if rows[k].id in ids then rows[k].(enabled := enabled) else rows[k]),
     Matched(rows, ids))
  }

  /** `bulk_articulation_scales`: an unknown mode is refused before anything changes. */
  function BulkArticulation(rows: seq<Row>, ids: seq<int>, mode: string): (r: Result<(seq<Row>, nat), ScaleError>)
    ensures r.Failure? <==> !ValidMode(mode)
    ensures r.Failure? ==> r.error == InvalidMode
    ensures r.Success? ==> |r.value.0| == |rows|
    ensures r.Success? ==> forall k :: 0 <= k < |rows| ==>
              r.value.0[k] == (if rows[k].id in ids then rows[k].(articulationMode := mode) else rows[k])
  {
    if !ValidMode(mode) then Failure(InvalidMode)
    else
      Success((seq(|rows|, k requires 0 <= k < |rows| =>
                 if rows[k].id in ids then rows[k].(articulationMode := mode) else rows[k]),
               Matched(rows, ids)))
  }

  /** A bulk update matches the same rows before and after it runs, so the reported count is
      the number of listed rows in the result. */
  lemma {:induction false} BulkEnableCount(rows: seq<Row>, ids: seq<int>, enabled: bool)
    ensures var (rows', n) := BulkEnable(rows, ids, enabled);
            n == |Filter(rows', InIds(ids))|
  {
    if |rows| > 0 {
      var rows' := BulkEnable(rows, ids, enabled).0;
      BulkEnableCount(rows[1..], ids, enabled);
      assert rows'[1..] == BulkEnable(rows[1..], ids, enabled).0;
      assert InIds(ids)(rows'[0]) == InIds(ids)(rows[0]);
    }
  }

  /** Every listed row carries the requested flag afterwards. */
  lemma BulkEnableListed(rows: seq<Row>, ids: seq<int>, enabled: bool, r: Row)
    requires r in Filter(BulkEnable(rows, ids, enabled).0, InIds(ids))
    ensures r.enabled == enabled
  {
    FilterMembers(BulkEnable(rows, ids, enabled).0, InIds(ids), r);
  }

  /** A bulk update repeated with the same request leaves the table as the first one did. */
  lemma BulkEnableIdempotent(rows: seq<Row>, ids: seq<int>, enabled: bool)
    ensures var once := BulkEnable(rows, ids, enabled).0;
            BulkEnable(once, ids, enabled).0 == once
  {
  }

  /** A bulk articulation update keeps every mode valid. */
  lemma BulkArticulationKeepsModesValid(rows: seq<Row>, ids: seq<int>, mode: string)
    requires forall k :: 0 <= k < |rows| ==> ValidMode(rows[k].articulationMode)
    requires BulkArticulation(rows, ids, mode).Success?
    ensures var rows' := BulkArticulation(rows, ids, mode).value.0;
            forall k :: 0 <= k < |rows'| ==> ValidMode(rows'[k].articulationMode)
  {
  }

  // ---------------------------------------------------------------------------
  // Listing
  // ---------------------------------------------------------------------------

  /** Whether a row passes the query's filters. A filter is applied only when its value is
      truthy in Python: an empty note or type, or zero octaves, is no filter. */
  predicate Matches(q: ScaleQuery, r: Row) {
    && (q.note.Some? && q.note.value != "" ==> r.note == q.note.value)
    && (q.category.Some? && q.category.value != "" ==> r.category == q.category.value)
    && (q.octaves.Some? && q.octaves.value != 0 ==> r.octaves == q.octaves.value)
    && (q.enabled.Some? ==> r.enabled == q.enabled.value)
  }

  function MatchesQuery(q: ScaleQuery): Row -> bool {
    (r: Row) => Matches(q, r)
  }

  /** `get_scales`, in table order. */
  function GetScales(rows: seq<Row>, q: ScaleQuery): (r: seq<Row>)
    ensures |r| <= |rows|
  {
    Filter(rows, MatchesQuery(q))
  }

  /** A row is listed exactly when it is in the table and passes every filter given. */
  lemma GetScalesMembers(rows: seq<Row>, q: ScaleQuery, r: Row)
    ensures r in GetScales(rows, q) <==> r in rows && Matches(q, r)
  {
    FilterMembers(rows, MatchesQuery(q), r);
  }

  /** With no filter, or only falsy ones, every row is listed. */
  lemma {:induction false} GetScalesUnfiltered(rows: seq<Row>, note: Option<string>, octaves: Option<int>)
    requires note.None? || note.value == ""
    requires octaves.None? || octaves.value == 0
    ensures GetScales(rows, ScaleQuery(note, None, octaves, None)) == rows
  {
    if |rows| > 0 {
      GetScalesUnfiltered(rows[1..], note, octaves);
      assert rows == [rows[0]] + rows[1..];
    }
  }

  /** Filtering by the enabled flag splits the table in two. */
  lemma {:induction false} EnabledFilterSplits(rows: seq<Row>)
    ensures |GetScales(rows, ScaleQuery(None, None, None, Some(true)))|
          + |GetScales(rows, ScaleQuery(None, None, None, Some(false)))| == |rows|
  {
    if |rows| > 0 {
      EnabledFilterSplits(rows[1..]);
    }
  }
}
