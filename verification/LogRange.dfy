// Range reads of the log table: how `logs_query` turns a Rust range into two SQL literals, and
// when the rows it selects are the ones the range contains.
module LogRange {
  import opened RaftTypes
  import opened Sqlite
  import opened KeySets
  import opened LogTable

  datatype Bound = Included(x: U64) | Excluded(x: U64) | Unbounded

  datatype Range = Range(start: Bound, end: Bound)

  predicate Contains(range: Range, index: int) {
    && (match range.start
        case Included(x) => x <= index
        case Excluded(x) => x < index
        case Unbounded => true)
    && (match range.end
        case Included(x) => index <= x
        case Excluded(x) => index < x
        case Unbounded => true)
  }

  // `x + 1` and `x - 1` on u64 wrap around in a release build; a debug build panics instead.
  function QueryStart(range: Range): U64 {
    match range.start
    case Included(x) => x
    case Excluded(x) => if x == U64_MAX then 0 else x + 1
    case Unbounded => 0
  }

  function QueryEnd(range: Range): U64 {
    match range.end
    case Included(x) => x
    case Excluded(x) => if x == 0 then U64_MAX else x - 1
    case Unbounded => I64_MAX
  }

  function SelectedKeys(rows: map<I64, Row>, range: Range): set<I64> {
    set k | k in rows && QueryStart(range) <= k <= QueryEnd(range)
  }

  // The rows come back in the order of the primary-key index, which is ascending: the query has
  // no ORDER BY, so this is an assumption about SQLite's scan.
  function SelectEntries(rows: map<I64, Row>, keys: seq<I64>): (r: seq<Entry>)
    requires forall k :: k in keys ==> k in rows
    ensures |r| == |keys|
    ensures forall i :: 0 <= i < |r| ==> r[i] == rows[keys[i]].entry
  {
    seq(|keys|, i requires 0 <= i < |keys| => rows[keys[i]].entry)
  }

  function TryGetLogEntries<U>(db: Db<U>, range: Range): Result<seq<Entry>> {
    if db.log.None? then Err
    else Ok(SelectEntries(db.log.value, Ascending(SelectedKeys(db.log.value, range))))
  }

  // The two bounds whose arithmetic wraps, except an exclusive end of 0 that no stored row can
  // reach anyway because the start lies beyond every 64-bit signed key.
  predicate BoundsFit(range: Range) {
    && range.start != Excluded(U64_MAX)
    && (range.end == Excluded(0) ==> QueryStart(range) > I64_MAX)
  }

  ghost predicate ReadsExactly(rows: map<I64, Row>, range: Range) {
    forall k :: k in SelectedKeys(rows, range) <==> k in rows && Contains(range, k)
  }

  // The query selects exactly the contained rows of every table with non-negative keys, if and
  // only if neither bound wraps.
  lemma RangeReadExact(range: Range)
    ensures BoundsFit(range) <==>
      forall rows: map<I64, Row> | (forall k :: k in rows ==> k >= 0) :: ReadsExactly(rows, range)
  {
    if !BoundsFit(range) {
      var k: I64 := if range.start == Excluded(U64_MAX) then 0 else QueryStart(range);
      var rows: map<I64, Row> := map[k := Row(0, 0, Entry(LogId(LeaderId(0, 0), k), Blank))];
      assert !Contains(range, k);
      assert QueryStart(range) == k;
      assert k <= QueryEnd(range);
      assert k in rows;
      assert k in SelectedKeys(rows, range);
      assert !ReadsExactly(rows, range);
    }
  }

  // ---- Reads of a stored log ----

  // The reference: walk the log and keep what the range contains.
  function Filter(entries: seq<Entry>, range: Range): seq<Entry> {
    if entries == [] then []
    else (if Contains(range, entries[0].logId.index) then [entries[0]] else []) + Filter(entries[1..], range)
  }

  lemma {:induction false} FilterSpec(first: int, entries: seq<Entry>, range: Range)
    requires RunFrom(first, entries)
    decreases |entries|
    ensures var r := Filter(entries, range);
      && (forall i :: 0 <= i < |r| ==> r[i] in entries && Contains(range, r[i].logId.index)
                                       && first <= r[i].logId.index < first + |entries|)
      && (forall i :: 0 <= i < |entries| && Contains(range, first + i) ==> entries[i] in r)
      && (forall i, j :: 0 <= i < j < |r| ==> r[i].logId.index < r[j].logId.index)
  {
    hide Contains;
    if entries != [] {
      FilterSpec(first + 1, entries[1..], range);
      assert entries == [entries[0]] + entries[1..];
    }
  }

  function Indices(entries: seq<Entry>): (r: seq<I64>)
    requires AllStorable(entries)
    ensures |r| == |entries|
    ensures forall i :: 0 <= i < |r| ==> r[i] == entries[i].logId.index
  {
    if entries == [] then [] else [entries[0].logId.index] + Indices(entries[1..])
  }

  // Rows that hold `all` from `base` on, none of the rows before it in the range.
  ghost predicate Readable(rows: map<I64, Row>, base: nat, all: seq<Entry>, range: Range) {
    && RowsHold(rows, base, all)
    && ReadsExactly(rows, range)
    && NoneBefore(rows, base, range)
  }

  ghost predicate NoneBefore(rows: map<I64, Row>, base: nat, range: Range) {
    forall k: I64 :: k in rows && k < base ==> !Contains(range, k)
  }

  lemma KeptIsRow(rows: map<I64, Row>, base: nat, all: seq<Entry>, range: Range, e: Entry)
    requires Readable(rows, base, all, range)
    requires e in Filter(all, range)
    ensures Storable(e) && e.logId.index in rows && e.logId.index in SelectedKeys(rows, range)
    ensures rows[e.logId.index].entry == e
  {
    FilterSpec(base, all, range);
    var j :| 0 <= j < |all| && all[j] == e;
    assert all[j].logId.index == base + j && Storable(all[j]);
    assert e.logId.index in rows;
  }

  lemma RowIsKept(rows: map<I64, Row>, base: nat, all: seq<Entry>, range: Range, k: I64)
    requires Readable(rows, base, all, range)
    requires k in SelectedKeys(rows, range)
    ensures k in rows && rows[k].entry in Filter(all, range) && rows[k].entry.logId.index == k
  {
    FilterSpec(base, all, range);
    assert k in rows && Contains(range, k);
    assert all[k - base].logId.index == k;
  }

  lemma KeptStorable(rows: map<I64, Row>, base: nat, all: seq<Entry>, range: Range)
    requires Readable(rows, base, all, range)
    ensures AllStorable(Filter(all, range))
    ensures var kept := Filter(all, range);
      forall i, j :: 0 <= i < j < |kept| ==> kept[i].logId.index < kept[j].logId.index
  {
    FilterSpec(base, all, range);
    hide Readable, Filter;
    forall i | 0 <= i < |Filter(all, range)| ensures Storable(Filter(all, range)[i]) {
      KeptIsRow(rows, base, all, range, Filter(all, range)[i]);
    }
  }

  lemma SelectedIffKept(rows: map<I64, Row>, base: nat, all: seq<Entry>, range: Range, k: I64)
    requires Readable(rows, base, all, range) && AllStorable(Filter(all, range))
    ensures k in SelectedKeys(rows, range) <==> k in Indices(Filter(all, range))
  {
    hide Readable, Filter, SelectedKeys;
    var kept := Filter(all, range);
    if k in SelectedKeys(rows, range) {
      RowIsKept(rows, base, all, range, k);
      var i :| 0 <= i < |kept| && kept[i] == rows[k].entry;
      assert Indices(kept)[i] == k;
    }
    if k in Indices(kept) {
      var i :| 0 <= i < |kept| && Indices(kept)[i] == k;
      KeptIsRow(rows, base, all, range, kept[i]);
    }
  }

  lemma KeysAreIndices(rows: map<I64, Row>, base: nat, all: seq<Entry>, range: Range)
    requires Readable(rows, base, all, range) && AllStorable(Filter(all, range))
    ensures Ascending(SelectedKeys(rows, range)) == Indices(Filter(all, range))
  {
    hide Readable, Filter, SelectedKeys;
    KeptStorable(rows, base, all, range);
    var keys, indices := Ascending(SelectedKeys(rows, range)), Indices(Filter(all, range));
    forall k: I64 ensures k in keys <==> k in indices {
      SelectedIffKept(rows, base, all, range, k);
    }
    AscendingUnique(keys, indices);
  }

  lemma EntriesOf(rows: map<I64, Row>, keys: seq<I64>, kept: seq<Entry>)
    requires |keys| == |kept|
    requires forall i :: 0 <= i < |kept| ==> keys[i] in rows && rows[keys[i]].entry == kept[i]
    requires forall k :: k in keys ==> k in rows
    ensures SelectEntries(rows, keys) == kept
  {
  }

  lemma FilteredRows(rows: map<I64, Row>, base: nat, all: seq<Entry>, range: Range)
    requires Readable(rows, base, all, range)
    ensures SelectEntries(rows, Ascending(SelectedKeys(rows, range))) == Filter(all, range)
  {
    hide Readable, Filter, Ascending;
    KeptStorable(rows, base, all, range);
    KeysAreIndices(rows, base, all, range);
    var kept := Filter(all, range);
    forall i | 0 <= i < |kept| ensures Indices(kept)[i] in rows && rows[Indices(kept)[i]].entry == kept[i] {
      KeptIsRow(rows, base, all, range, kept[i]);
    }
    EntriesOf(rows, Indices(kept), kept);
  }

  // A row before the marker that the range contains shows up in the read.
  lemma LeftoverIsRead(rows: map<I64, Row>, base: nat, all: seq<Entry>, range: Range, k: I64)
    requires RowsHold(rows, base, all) && ReadsExactly(rows, range)
    requires k in rows && k < base && Contains(range, k)
    ensures SelectEntries(rows, Ascending(SelectedKeys(rows, range))) != Filter(all, range)
  {
    var keys := Ascending(SelectedKeys(rows, range));
    assert k in SelectedKeys(rows, range);
    var i :| 0 <= i < |keys| && keys[i] == k;
    assert RowFits(k, rows[k]);
    assert SelectEntries(rows, keys)[i].logId.index < base;
    FilterSpec(base, all, range);
  }

  // A range read returns exactly the entries of the stored log that the range contains, each once
  // and in index order (the same list as filtering the log itself), if and only if no row that an
  // unfinished purge left behind lies in the range.
  lemma RangeReadFilters<U>(db: Db<U>, l: Log, range: Range)
    requires Stores(db, l) && BoundsFit(range)
    ensures TryGetLogEntries(db, range) == Ok(Filter(l.entries, range))
      <==> NoneBefore(db.log.value, Base(l), range)
  {
    var rows := db.log.value;
    forall k: I64 | k in rows ensures k >= 0 { assert RowFits(k, rows[k]); }
    RangeReadExact(range);
    assert ReadsExactly(rows, range);
    hide RowsHold, Filter, Contains, SelectedKeys, ReadsExactly;
    if NoneBefore(rows, Base(l), range) {
      FilteredRows(rows, Base(l), l.entries, range);
    } else {
      var k: I64 :| k in rows && k < Base(l) && Contains(range, k);
      LeftoverIsRead(rows, Base(l), l.entries, range, k);
    }
  }

  // The last row's columns spell the log id of the last entry of a full read, or both report an
  // empty table, on every table, leftover rows included. The full read is the log itself if and
  // only if there are none.
  lemma LastRowMatchesFullRead<U>(db: Db<U>, l: Log)
    requires Stores(db, l)
    ensures var read := TryGetLogEntries(db, Range(Unbounded, Unbounded));
      && read.Ok?
      && LastLogEntry(db) == Ok(LastLogIdOf(read.value))
      && (read.value == l.entries <==> Clean(db, l))
  {
    var all, rows := Range(Unbounded, Unbounded), db.log.value;
    assert Clean(db, l) <==> NoneBefore(rows, Base(l), all);
    assert TryGetLogEntries(db, all).Ok?;
    FullReadEnds(db);
    hide *;
    RangeReadFilters(db, l, all);
    FilterAll(l.entries);
  }

  function LastLogIdOf(entries: seq<Entry>): Option<LogId> {
    if entries == [] then None else Some(entries[|entries| - 1].logId)
  }

  lemma FullReadEnds<U>(db: Db<U>)
    requires db.log.Some? && Consistent(db.log.value)
    ensures LastLogEntry(db) == Ok(LastLogIdOf(TryGetLogEntries(db, Range(Unbounded, Unbounded)).value))
  {
    var rows := db.log.value;
    var selected := SelectedKeys(rows, Range(Unbounded, Unbounded));
    forall k: I64 | k in rows ensures k in selected { assert RowFits(k, rows[k]); }
    assert selected == rows.Keys;
    LastLogEntryIs(db);
    hide Consistent, RowFits, SelectedKeys, Ascending, Greatest, LastLogEntry;
    if rows != map[] { GreatestIsLast(rows.Keys); }
  }

  lemma {:induction false} FilterAll(entries: seq<Entry>)
    ensures Filter(entries, Range(Unbounded, Unbounded)) == entries
  {
    if entries != [] { FilterAll(entries[1..]); }
  }

  // Without the table every read fails; with it a range read never does, and the bounds are reported
  // exactly if the purge marker can be read.
  lemma ReadsNeedTable<U>(db: Db<U>, range: Range)
    ensures TryGetLogEntries(db, range).Ok? <==> db.log.Some?
    ensures LastLogEntry(db).Ok? <==> db.log.Some?
    ensures GetLogState(db).Ok? <==> db.log.Some? && FetchLogId(LastPurgedIdKey, db).Ok?
  {
  }
}
