/** Recording practice sessions and aggregating the practice history
    (backend/routes/practice.py). Timestamps are integers; the clock reading of a request
    and the id the database assigns to a new session are parameters. */
module Practice {
  import opened Wrappers
  import opened Models
  import opened Sorting

  /** One item of a `POST /practice-session` request. */
  datatype EntryInput = EntryInput(
    itemType: string,
    itemId: int,
    articulation: Option<string>,
    wasPracticed: bool,
    practicedSlurred: bool,
    practicedSeparate: bool,
    practicedBpm: Option<int>,
    targetBpm: Option<int>,
    matchedTargetBpm: Option<bool>
  )

  /** A row of the `practice_entries` table. */
  datatype Entry = Entry(
    sessionId: int,
    itemType: string,
    itemId: int,
    articulation: Option<string>,
    wasPracticed: bool,
    practicedSlurred: bool,
    practicedSeparate: bool,
    practicedBpm: Option<int>,
    targetBpm: Option<int>,
    matchedTargetBpm: Option<bool>,
    createdAt: int
  )

  datatype SessionResponse = SessionResponse(id: int, createdAt: int, entriesCount: nat, practicedCount: nat)

  /** The stored row for one request item: practising either articulation counts as
      practising the item. */
  function StoredEntry(sessionId: int, now: int, e: EntryInput): (r: Entry)
    ensures r.wasPracticed <==> e.wasPracticed || e.practicedSlurred || e.practicedSeparate
    ensures r.sessionId == sessionId && r.createdAt == now
    ensures r.itemType == e.itemType && r.itemId == e.itemId && r.articulation == e.articulation
    ensures r.practicedSlurred == e.practicedSlurred && r.practicedSeparate == e.practicedSeparate
    ensures r.practicedBpm == e.practicedBpm && r.targetBpm == e.targetBpm
    ensures r.matchedTargetBpm == e.matchedTargetBpm
  {
    Entry(sessionId, e.itemType, e.itemId, e.articulation,
          e.wasPracticed || e.practicedSlurred || e.practicedSeparate,
          e.practicedSlurred, e.practicedSeparate, e.practicedBpm, e.targetBpm,
          e.matchedTargetBpm, now)
  }

  predicate IsPracticed(e: Entry) {
    e.wasPracticed
  }

  /** The entries that were practised, in order. */
  function PracticedOf(entries: seq<Entry>): seq<Entry> {
    Filter(entries, IsPracticed)
  }

  /** `create_practice_session`: one stored entry per request item, and the counts the
      response reports. */
  method CreatePracticeSession(inputs: seq<EntryInput>, sessionId: int, now: int)
    returns (entries: seq<Entry>, resp: SessionResponse)
    ensures |entries| == |inputs|
    ensures forall k :: 0 <= k < |inputs| ==> entries[k] == StoredEntry(sessionId, now, inputs[k])
    ensures resp.id == sessionId && resp.createdAt == now
    ensures resp.entriesCount == |inputs|
    ensures resp.practicedCount == |PracticedOf(entries)|
    ensures resp.practicedCount <= resp.entriesCount
  {
    entries := [];
    var practiced := 0;
    var i := 0;
    while i < |inputs|
      invariant 0 <= i <= |inputs|
      invariant |entries| == i
      invariant forall k :: 0 <= k < i ==> entries[k] == StoredEntry(sessionId, now, inputs[k])
      invariant practiced == |PracticedOf(entries)|
    {
      var entry := StoredEntry(sessionId, now, inputs[i]);
      FilterSnoc(entries, entry, IsPracticed);
      entries := entries + [entry];
      if entry.wasPracticed {
        practiced := practiced + 1;
      }
      i := i + 1;
    }
    resp := SessionResponse(sessionId, now, |inputs|, practiced);
  }

  /** A session counts as practised exactly the request items with one of the three
      practice flags set. */
  lemma {:induction false} PracticedCountMatchesFlags(inputs: seq<EntryInput>, entries: seq<Entry>, sessionId: int, now: int)
    requires |entries| == |inputs|
    requires forall k :: 0 <= k < |inputs| ==> entries[k] == StoredEntry(sessionId, now, inputs[k])
    ensures |PracticedOf(entries)| == |Filter(inputs, AnyPractice)|
  {
    if |inputs| > 0 {
      PracticedCountMatchesFlags(inputs[1..], entries[1..], sessionId, now);
      assert IsPracticed(entries[0]) == AnyPractice(inputs[0]);
    }
  }

  predicate AnyPractice(e: EntryInput) {
    e.wasPracticed || e.practicedSlurred || e.practicedSeparate
  }

  // ---------------------------------------------------------------------------
  // Practice history
  // ---------------------------------------------------------------------------

  datatype HistoryItem = HistoryItem(
    itemType: string,
    itemId: int,
    displayName: string,
    totalSessions: nat,
    timesPracticed: nat,
    lastPracticed: Option<int>,
    maxPracticedBpm: Option<int>,
    targetBpm: Option<int>
  )

  /** Whether an entry was recorded for the catalog item `(kind, id)`. */
  function ForItem(kind: Kind, id: int): Entry -> bool {
    (e: Entry) => e.itemType == kind.Name() && e.itemId == id
  }

  /** The entries recorded for one catalog item. */
  function EntriesFor(entries: seq<Entry>, kind: Kind, id: int): seq<Entry> {
    Filter(entries, ForItem(kind, id))
  }

  function CreatedTimes(entries: seq<Entry>): (ts: seq<int>)
    ensures |ts| == |entries| && forall k :: 0 <= k < |entries| ==> ts[k] == entries[k].createdAt
  {
    seq(|entries|, k requires 0 <= k < |entries| => entries[k].createdAt)
  }

  /** The recorded BPMs of some entries, skipping those without one. */
  function RecordedBpms(entries: seq<Entry>): (bs: seq<int>)
    ensures forall b :: b in bs <==> exists k :: 0 <= k < |entries| && entries[k].practicedBpm == Some(b)
  {
    if |entries| == 0 then []
    else
      var rest := RecordedBpms(entries[1..]);
      assert forall k :: 1 <= k < |entries| ==> entries[k] == entries[1..][k - 1];
      assert forall k :: 0 <= k < |entries| - 1 ==> entries[1..][k] == entries[k + 1];
      match entries[0].practicedBpm
      case Some(b) => [b] + rest
      case None => rest
  }

  /** One history row: how often the item was in a session, how often it was practised,
      and the latest time and highest BPM among its practised entries. */
  function ItemHistory(kind: Kind, row: Row, entries: seq<Entry>): (h: HistoryItem)
    ensures h.itemType == kind.Name() && h.itemId == row.id && h.targetBpm == row.targetBpm
    ensures h.displayName == DisplayName(kind, row)
    ensures h.timesPracticed <= h.totalSessions
    ensures h.lastPracticed.None? <==> h.timesPracticed == 0
    ensures h.maxPracticedBpm.Some? ==> h.lastPracticed.Some?
  {
    var mine := EntriesFor(entries, kind, row.id);
    var practiced := PracticedOf(mine);
    HistoryItem(
      kind.Name(), row.id, DisplayName(kind, row), |mine|, |practiced|,
      MaxOf(CreatedTimes(practiced)), MaxOf(RecordedBpms(practiced)), row.targetBpm)
  }

  /** The last-practised time is the latest `created_at` of a practised entry for the item. */
  lemma LastPracticedIsLatest(kind: Kind, row: Row, entries: seq<Entry>, e: Entry)
    requires e in entries && e.itemType == kind.Name() && e.itemId == row.id && e.wasPracticed
    ensures var h := ItemHistory(kind, row, entries);
            h.lastPracticed.Some? && e.createdAt <= h.lastPracticed.value
  {
    var mine := EntriesFor(entries, kind, row.id);
    FilterMembers(entries, ForItem(kind, row.id), e);
    FilterMembers(mine, IsPracticed, e);
    var practiced := PracticedOf(mine);
    var k :| 0 <= k < |practiced| && practiced[k] == e;
    assert CreatedTimes(practiced)[k] == e.createdAt;
  }

  /** The highest practised BPM is attained by a practised entry of the item and bounds
      every recorded BPM of its practised entries; it is absent exactly when none of them
      recorded one. */
  lemma MaxBpmIsHighest(kind: Kind, row: Row, entries: seq<Entry>, e: Entry, b: int)
    requires e in entries && e.itemType == kind.Name() && e.itemId == row.id && e.wasPracticed
    requires e.practicedBpm == Some(b)
    ensures var h := ItemHistory(kind, row, entries);
            h.maxPracticedBpm.Some? && b <= h.maxPracticedBpm.value
  {
    var mine := EntriesFor(entries, kind, row.id);
    FilterMembers(entries, ForItem(kind, row.id), e);
    FilterMembers(mine, IsPracticed, e);
    var practiced := PracticedOf(mine);
    var k :| 0 <= k < |practiced| && practiced[k] == e;
    assert b in RecordedBpms(practiced);
  }

  /** The last-practised time is the `created_at` of some practised entry for the item. */
  lemma LastPracticedAttained(kind: Kind, row: Row, entries: seq<Entry>)
    ensures var h := ItemHistory(kind, row, entries);
            h.lastPracticed.Some? ==>
              exists e :: e in entries && ForItem(kind, row.id)(e) && e.wasPracticed && e.createdAt == h.lastPracticed.value
  {
    var h := ItemHistory(kind, row, entries);
    var mine := EntriesFor(entries, kind, row.id);
    var practiced := PracticedOf(mine);
    if h.lastPracticed.Some? {
      var ts := CreatedTimes(practiced);
      var k :| 0 <= k < |ts| && ts[k] == h.lastPracticed.value;
      FilterMembers(mine, IsPracticed, practiced[k]);
      FilterMembers(entries, ForItem(kind, row.id), practiced[k]);
    }
  }

  /** The highest practised BPM is the BPM recorded by some practised entry for the item. */
  lemma MaxBpmAttained(kind: Kind, row: Row, entries: seq<Entry>)
    ensures var h := ItemHistory(kind, row, entries);
            h.maxPracticedBpm.Some? ==>
              exists e :: e in entries && ForItem(kind, row.id)(e) && e.wasPracticed
                          && e.practicedBpm == h.maxPracticedBpm
  {
    var h := ItemHistory(kind, row, entries);
    var mine := EntriesFor(entries, kind, row.id);
    var practiced := PracticedOf(mine);
    if h.maxPracticedBpm.Some? {
      var k :| 0 <= k < |practiced| && practiced[k].practicedBpm == h.maxPracticedBpm;
      FilterMembers(mine, IsPracticed, practiced[k]);
      FilterMembers(entries, ForItem(kind, row.id), practiced[k]);
    }
  }

  /** Without any practised entry carrying a BPM, there is no highest BPM. */
  lemma NoBpmWithoutRecords(kind: Kind, row: Row, entries: seq<Entry>)
    requires forall e :: e in entries && e.itemType == kind.Name() && e.itemId == row.id && e.wasPracticed
               ==> e.practicedBpm.None?
    ensures ItemHistory(kind, row, entries).maxPracticedBpm.None?
  {
    var mine := EntriesFor(entries, kind, row.id);
    var practiced := PracticedOf(mine);
    if RecordedBpms(practiced) != [] {
      var b := RecordedBpms(practiced)[0];
      var k :| 0 <= k < |practiced| && practiced[k].practicedBpm == Some(b);
      var e := practiced[k];
      FilterMembers(mine, IsPracticed, e);
      FilterMembers(entries, ForItem(kind, row.id), e);
      assert false;
    }
  }

  /** Recording more entries adds to an item's counts exactly the new entries for it. */
  lemma RecordingAddsCounts(kind: Kind, row: Row, old_: seq<Entry>, added: seq<Entry>)
    ensures var before := ItemHistory(kind, row, old_);
            var after := ItemHistory(kind, row, old_ + added);
            var mine := EntriesFor(added, kind, row.id);
            after.totalSessions == before.totalSessions + |mine|
            && after.timesPracticed == before.timesPracticed + |PracticedOf(mine)|
  {
    var p := ForItem(kind, row.id);
    FilterConcat(old_, added, p);
    FilterConcat(Filter(old_, p), Filter(added, p), IsPracticed);
  }

  function Summaries(kind: Kind, rows: seq<Row>, entries: seq<Entry>): (hs: seq<HistoryItem>)
    ensures |hs| == |rows| && forall k :: 0 <= k < |rows| ==> hs[k] == ItemHistory(kind, rows[k], entries)
  {
    seq(|rows|, k requires 0 <= k < |rows| => ItemHistory(kind, rows[k], entries))
  }

  function TimesPracticed(h: HistoryItem): int {
    h.timesPracticed
  }

  /** Whether the `item_type` query parameter asks for a kind of item. */
  predicate Includes(itemType: Option<string>, kind: Kind) {
    itemType.None? || itemType == Some(kind.Name())
  }

  /** The history rows before sorting: enabled scales, then enabled arpeggios. */
  function Unsorted(itemType: Option<string>, cat: Catalog, entries: seq<Entry>): seq<HistoryItem> {
    (if Includes(itemType, Scale) then Summaries(Scale, Enabled(cat.scales), entries) else [])
    + (if Includes(itemType, Arpeggio) then Summaries(Arpeggio, Enabled(cat.arpeggios), entries) else [])
  }

  /** `get_practice_history`: a row per enabled item of the requested kinds, least practised
      first. */
  function History(itemType: Option<string>, cat: Catalog, entries: seq<Entry>): seq<HistoryItem> {
    SortBy(Unsorted(itemType, cat, entries), TimesPracticed)
  }

  /** The history is ordered by how often each item was practised, ascending. */
  lemma HistorySorted(itemType: Option<string>, cat: Catalog, entries: seq<Entry>)
    ensures var r := History(itemType, cat, entries);
            forall i, j :: 0 <= i < j < |r| ==> r[i].timesPracticed <= r[j].timesPracticed
  {
    SortBySorted(Unsorted(itemType, cat, entries), TimesPracticed);
  }

  /** Items practised equally often keep their order: scales before arpeggios, each in
      table order. */
  lemma HistoryStable(itemType: Option<string>, cat: Catalog, entries: seq<Entry>, n: int)
    ensures WithKey(History(itemType, cat, entries), TimesPracticed, n)
         == WithKey(Unsorted(itemType, cat, entries), TimesPracticed, n)
  {
    SortByStable(Unsorted(itemType, cat, entries), TimesPracticed, n);
  }

  /** The history has one row per enabled item of each requested kind; an unknown
      `item_type` gives an empty history. */
  lemma HistoryLength(itemType: Option<string>, cat: Catalog, entries: seq<Entry>)
    ensures |History(itemType, cat, entries)|
         == (if Includes(itemType, Scale) then EnabledCount(cat.scales) else 0)
          + (if Includes(itemType, Arpeggio) then EnabledCount(cat.arpeggios) else 0)
    ensures itemType.Some? && itemType != Some("scale") && itemType != Some("arpeggio")
            ==> History(itemType, cat, entries) == []
  {
  }

  /** A row summarises one of the given table rows. */
  lemma SummariesRows(kind: Kind, rows: seq<Row>, entries: seq<Entry>, h: HistoryItem)
    ensures h in Summaries(kind, rows, entries) <==> exists row :: row in rows && h == ItemHistory(kind, row, entries)
  {
    var hs := Summaries(kind, rows, entries);
    if exists row :: row in rows && h == ItemHistory(kind, row, entries) {
      var row :| row in rows && h == ItemHistory(kind, row, entries);
      var k :| 0 <= k < |rows| && rows[k] == row;
      assert hs[k] == h;
    }
  }

  /** The rows of one requested kind: one per enabled row of its table. */
  lemma KindRows(itemType: Option<string>, kind: Kind, cat: Catalog, entries: seq<Entry>, h: HistoryItem)
    ensures h in (if Includes(itemType, kind) then Summaries(kind, Enabled(cat.Table(kind)), entries) else [])
        <==> Includes(itemType, kind) && exists row :: row in cat.Table(kind) && row.enabled && h == ItemHistory(kind, row, entries)
  {
    SummariesRows(kind, Enabled(cat.Table(kind)), entries, h);
    forall row ensures row in Enabled(cat.Table(kind)) <==> row in cat.Table(kind) && row.enabled {
      EnabledMembers(cat.Table(kind), row);
    }
  }

  /** Every row of the history summarises an enabled item of a requested kind, and every
      such item has its row. */
  lemma HistoryRows(itemType: Option<string>, cat: Catalog, entries: seq<Entry>, h: HistoryItem)
    ensures h in History(itemType, cat, entries)
        <==> ((Includes(itemType, Scale) && exists row :: row in cat.scales && row.enabled && h == ItemHistory(Scale, row, entries))
              || (Includes(itemType, Arpeggio) && exists row :: row in cat.arpeggios && row.enabled && h == ItemHistory(Arpeggio, row, entries)))
  {
    var u := Unsorted(itemType, cat, entries);
    var r := History(itemType, cat, entries);
    assert h in r <==> h in u by {
      assert h in r <==> h in multiset(r);
      assert h in u <==> h in multiset(u);
    }
    KindRows(itemType, Scale, cat, entries, h);
    KindRows(itemType, Arpeggio, cat, entries, h);
  }
}
