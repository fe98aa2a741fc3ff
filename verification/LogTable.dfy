// The durable Raft log: a table of rows and a purge marker. Every operation is a short program
// of separately committed statements; the table refines an abstract log across all of them,
// also when the process dies between two statements.
module LogTable {
  import opened RaftTypes
  import opened Sqlite
  import opened KeySets
  import Statements

  // ---- The statements of each operation ----

  function RowStmt(e: Entry): Stmt {
    UpsertRow(e.logId.leaderId.nodeId, e.logId.index, e.logId.leaderId.term, e)
  }

  function AppendProgram(entries: seq<Entry>): seq<Stmt> {
    if entries == [] then [] else [RowStmt(entries[0])] + AppendProgram(entries[1..])
  }

  function TruncateProgram(id: LogId): seq<Stmt> {
    [DeleteRowsFrom(id.index)]
  }

  function PurgeProgram(id: LogId): seq<Stmt> {
    [Upsert(LastPurgedIdKey, LogIdBlob(id)), DeleteRowsUpTo(id.index)]
  }

  // ---- The queries ----

  // The log id spelled by the columns of the row with the greatest index.
  function LastLogEntry<U>(db: Db<U>): Result<Option<LogId>> {
    if db.log.None? then Err
    else if db.log.value == map[] then Ok(None)
    else
      var k := Greatest(db.log.value.Keys);
      var row := db.log.value[k];
      Ok(Some(LogId(LeaderId(CastToU64(row.term), CastToU64(row.nodeId)), CastToU64(k))))
  }

  datatype LogState = LogState(lastPurged: Option<LogId>, last: Option<LogId>)

  function GetLogState<U>(db: Db<U>): Result<LogState> {
    match LastLogEntry(db)
    case Err => Err
    case Ok(last) =>
      match FetchLogId(LastPurgedIdKey, db)
      case Err => Err
      case Ok(purged) => Ok(LogState(purged, if last.Some? then last else purged))
  }

  // ---- The abstract log ----

  datatype Log = Log(purged: Option<LogId>, entries: seq<Entry>)

  function Base(l: Log): nat {
    NextIndex(l.purged)
  }

  function LastId(l: Log): Option<LogId> {
    if l.entries == [] then l.purged else Some(l.entries[|l.entries| - 1].logId)
  }

  // What rusqlite can bind: every number of the log id fits a signed 64-bit column.
  predicate Storable(e: Entry) {
    e.logId.index <= I64_MAX && e.logId.leaderId.term <= I64_MAX && e.logId.leaderId.nodeId <= I64_MAX
  }

  function RowOf(e: Entry): Row
    requires Storable(e)
  {
    Row(e.logId.leaderId.nodeId, e.logId.leaderId.term, e)
  }

  ghost predicate RunFrom(first: int, entries: seq<Entry>) {
    forall i :: 0 <= i < |entries| ==> entries[i].logId.index == first + i
  }

  predicate AllStorable(entries: seq<Entry>) {
    forall i :: 0 <= i < |entries| ==> Storable(entries[i])
  }

  // The columns of a row repeat the log id inside its blob, and its key is that id's index.
  predicate RowFits(k: I64, row: Row) {
    row.entry.logId.index == k && Storable(row.entry) && row == RowOf(row.entry)
  }

  ghost predicate Consistent(rows: map<I64, Row>) {
    forall k: I64 :: k in rows ==> RowFits(k, rows[k])
  }

  // From `base` on, the rows are exactly `entries`, one contiguous run. Rows below `base` are what
  // a purge that did not finish left behind.
  ghost predicate RowsHold(rows: map<I64, Row>, base: nat, entries: seq<Entry>) {
    && Consistent(rows)
    && RunFrom(base, entries)
    && AllStorable(entries)
    && (forall k: I64 :: k >= base ==> (k in rows <==> k < base + |entries|))
    && (forall k: I64 :: k in rows && k >= base ==> rows[k].entry == entries[k - base])
  }

  // The database holds log `l`.
  ghost predicate Stores<U>(db: Db<U>, l: Log) {
    && db.log.Some?
    && RowsHold(db.log.value, Base(l), l.entries)
    && FetchLogId(LastPurgedIdKey, db) == Ok(l.purged)
  }

  // No row is left at or below the marker.
  ghost predicate Clean<U>(db: Db<U>, l: Log)
    requires db.log.Some?
  {
    forall k: I64 :: k in db.log.value ==> k >= Base(l)
  }

  // Either that, or the row of the purged id itself is still there.
  ghost predicate Tidy<U>(db: Db<U>, l: Log)
    requires db.log.Some?
  {
    || Clean(db, l)
    || (l.purged.Some? && l.purged.value.index <= I64_MAX && l.purged.value.index in db.log.value
        && db.log.value[l.purged.value.index].entry.logId == l.purged.value)
  }

  // The columns of the greatest row, cast back to u64, spell the log id of its entry.
  lemma LastLogEntryIs<U>(db: Db<U>)
    requires db.log.Some? && Consistent(db.log.value)
    ensures LastLogEntry(db) == Ok(if db.log.value == map[] then None
                                   else Some(db.log.value[Greatest(db.log.value.Keys)].entry.logId))
    ensures db.log.value != map[] ==>
      db.log.value[Greatest(db.log.value.Keys)].entry.logId.index == Greatest(db.log.value.Keys)
  {
    if db.log.value != map[] {
      assert RowFits(Greatest(db.log.value.Keys), db.log.value[Greatest(db.log.value.Keys)]);
    }
  }

  lemma GreatestRow(rows: map<I64, Row>, base: nat, entries: seq<Entry>)
    requires RowsHold(rows, base, entries)
    ensures entries != [] ==>
      && base + |entries| - 1 <= I64_MAX && rows != map[]
      && Greatest(rows.Keys) == base + |entries| - 1
      && rows[Greatest(rows.Keys)].entry == entries[|entries| - 1]
    ensures entries == [] && rows != map[] ==> Greatest(rows.Keys) < base
  {
    if entries != [] {
      var k: I64 := entries[|entries| - 1].logId.index;
      assert k == base + |entries| - 1;
      assert k in rows.Keys;
      assert IsGreatest(k, rows.Keys);
    }
  }

  // `get_log_state` always reports the marker, and it reports the abstract log's last id exactly
  // when the log has entries or the table is tidy. It then never puts the purged id after the last.
  lemma LogStateAgrees<U>(db: Db<U>, l: Log)
    requires Stores(db, l)
    ensures GetLogState(db).Ok? && GetLogState(db).value.lastPurged == l.purged
    ensures GetLogState(db) == Ok(LogState(l.purged, LastId(l))) <==> l.entries != [] || Tidy(db, l)
    ensures NextIndex(l.purged) <= NextIndex(LastId(l))
  {
    var rows := db.log.value;
    LastLogEntryIs(db);
    GreatestRow(rows, Base(l), l.entries);
    if l.entries != [] {
      assert l.entries[|l.entries| - 1].logId.index == Base(l) + |l.entries| - 1;
    } else if rows != map[] {
      var g := Greatest(rows.Keys);
      assert g in rows.Keys && g < Base(l);
    }
  }

  // ---- Operations, complete or cut short by a crash ----

  // `done` counts the statements that were committed before the process died; an operation that
  // completed has done at least as many as its program holds.
  datatype Event =
    | Append(entries: seq<Entry>, done: nat)
    | Truncate(id: LogId, done: nat)
    | Purge(id: LogId, done: nat)

  function Take(program: seq<Stmt>, n: nat): seq<Stmt> {
    if n < |program| then program[..n] else program
  }

  function Program(ev: Event): seq<Stmt> {
    match ev
    case Append(entries, done) => Take(AppendProgram(entries), done)
    case Truncate(id, done) => Take(TruncateProgram(id), done)
    case Purge(id, done) => Take(PurgeProgram(id), done)
  }

  // How many leading entries of a batch reach the table before one cannot be bound.
  function StorablePrefix(entries: seq<Entry>): (n: nat)
    ensures n <= |entries|
    ensures forall i :: 0 <= i < n ==> Storable(entries[i])
    ensures n < |entries| ==> !Storable(entries[n])
  {
    if entries == [] || !Storable(entries[0]) then 0 else 1 + StorablePrefix(entries[1..])
  }

  function Min(a: int, b: int): int {
    if a < b then a else b
  }

  function Clamp(x: int, hi: nat): nat {
    if x < 0 then 0 else Min(x, hi)
  }

  // The position in the log where a batch begins.
  function At(entries: seq<Entry>, l: Log): (n: nat)
    ensures n <= |l.entries|
  {
    if entries == [] then |l.entries| else Clamp(entries[0].logId.index - Base(l), |l.entries|)
  }

  // `batch` from position `at` on, over what was there, and what was beyond it.
  function Splice(entries: seq<Entry>, at: nat, batch: seq<Entry>): seq<Entry>
    requires at <= |entries|
  {
    entries[..at] + batch + if at + |batch| < |entries| then entries[at + |batch|..] else []
  }

  // The effect on the abstract log: a cut append keeps a prefix of the batch, and a purge counts
  // as done once its marker is written.
  function Abstract(ev: Event, l: Log): Log {
    match ev
    case Append(entries, done) =>
      l.(entries := Splice(l.entries, At(entries, l), entries[..Min(done, StorablePrefix(entries))]))
    case Truncate(id, done) =>
      if done == 0 then l else l.(entries := l.entries[..Clamp(id.index - Base(l), |l.entries|)])
    case Purge(id, done) =>
      if done == 0 then l else Log(Some(id), l.entries[Clamp(id.index + 1 - Base(l), |l.entries|)..])
  }

  // What the Raft core does: it appends a run of entries right after the last one or over entries
  // that are there, truncates above the marker, and purges up to an id at or after the marker,
  // possibly past the end of the log.
  ghost predicate Legal(ev: Event, l: Log) {
    match ev
    case Append(entries, _) => Follows(entries, l)
    case Truncate(id, _) => Base(l) <= id.index
    case Purge(id, _) => Base(l) <= id.index + 1
  }

  ghost predicate Follows(entries: seq<Entry>, l: Log) {
    entries != [] ==>
      Base(l) <= entries[0].logId.index <= Base(l) + |l.entries| && RunFrom(entries[0].logId.index, entries)
  }

  lemma AppendOne<U>(sql: Sql<U>, db: Db<U>, l: Log, e: Entry)
    requires Stores(db, l)
    requires Base(l) <= e.logId.index <= Base(l) + |l.entries|
    ensures Storable(e) ==>
      && Exec(sql, RowStmt(e), db).Some?
      && Stores(Exec(sql, RowStmt(e), db).value, l.(entries := Splice(l.entries, e.logId.index - Base(l), [e])))
    ensures !Storable(e) ==> Exec(sql, RowStmt(e), db) == None
  {
    assert db.log.Some?;
    if Storable(e) { PutStores(db, l, e); }
    hide Stores, Exec, RowStmt, Splice, Base, RowOf;
    UpsertResult(sql, db, e);
  }

  lemma PutStores<U>(db: Db<U>, l: Log, e: Entry)
    requires Stores(db, l) && Storable(e)
    requires Base(l) <= e.logId.index <= Base(l) + |l.entries|
    ensures Stores(db.(log := Some(db.log.value[e.logId.index := RowOf(e)])),
                   l.(entries := Splice(l.entries, e.logId.index - Base(l), [e])))
  {
    RowsPut(db.log.value, Base(l), l.entries, e);
    hide RowsHold, Splice, RowOf;
    RowsReplaced(db, l, db.log.value[e.logId.index := RowOf(e)], Splice(l.entries, e.logId.index - Base(l), [e]));
  }

  lemma UpsertResult<U>(sql: Sql<U>, db: Db<U>, e: Entry)
    requires db.log.Some?
    ensures Exec(sql, RowStmt(e), db)
      == if Storable(e) then Some(db.(log := Some(db.log.value[e.logId.index := RowOf(e)]))) else None
  {
  }

  lemma RowsPut(rows: map<I64, Row>, base: nat, entries: seq<Entry>, e: Entry)
    requires RowsHold(rows, base, entries)
    requires base <= e.logId.index <= base + |entries| && Storable(e)
    ensures RowsHold(rows[e.logId.index := RowOf(e)], base, Splice(entries, e.logId.index - base, [e]))
  {
    var at := e.logId.index - base;
    var put := Splice(entries, at, [e]);
    assert |put| == if at < |entries| then |entries| else |entries| + 1;
    assert forall i :: 0 <= i < |put| ==> put[i] == if i == at then e else entries[i];
    hide Splice;
  }

  lemma TakeCons(first: Stmt, rest: seq<Stmt>, done: nat)
    requires done > 0
    ensures Take([first] + rest, done) == [first] + Take(rest, done - 1)
  {
  }

  lemma RunCons<U>(sql: Sql<U>, first: Stmt, rest: seq<Stmt>, db: Db<U>)
    ensures RunProgram(sql, [first] + rest, db) ==
      match Exec(sql, first, db) {
        case None => Outcome(db, false)
        case Some(db') => RunProgram(sql, rest, db')
      }
  {
    hide Exec;
    assert ([first] + rest)[1..] == rest;
  }

  // One statement of the loop in `append_to_log`.
  lemma AppendUnfold<U>(sql: Sql<U>, entries: seq<Entry>, done: nat, db: Db<U>)
    requires entries != [] && done > 0
    ensures RunProgram(sql, Take(AppendProgram(entries), done), db) ==
      match Exec(sql, RowStmt(entries[0]), db) {
        case None => Outcome(db, false)
        case Some(db') => RunProgram(sql, Take(AppendProgram(entries[1..]), done - 1), db')
      }
  {
    hide Exec, RowStmt, RunProgram, Take;
    TakeCons(RowStmt(entries[0]), AppendProgram(entries[1..]), done);
    RunCons(sql, RowStmt(entries[0]), Take(AppendProgram(entries[1..]), done - 1), db);
  }

  lemma SpliceTwice(entries: seq<Entry>, at: nat, e: Entry, rest: seq<Entry>)
    requires at <= |entries|
    ensures var one := Splice(entries, at, [e]);
      at + 1 <= |one| && Splice(one, at + 1, rest) == Splice(entries, at, [e] + rest)
  {
    var one := Splice(entries, at, [e]);
    assert one[..at + 1] == entries[..at] + [e];
    assert entries[..at] + [e] + rest == entries[..at] + ([e] + rest);
    if at + 1 + |rest| < |entries| {
      assert one[at + 1 + |rest|..] == entries[at + 1 + |rest|..];
    }
  }

  lemma AbstractAppendUnfold(entries: seq<Entry>, done: nat, l: Log)
    requires entries != [] && done > 0 && Follows(entries, l)
    ensures var at := entries[0].logId.index - Base(l);
      && (Storable(entries[0]) ==>
            && StorablePrefix(entries) == 1 + StorablePrefix(entries[1..])
            && var l' := l.(entries := Splice(l.entries, at, [entries[0]]));
               && Follows(entries[1..], l')
               && Abstract(Append(entries, done), l) == Abstract(Append(entries[1..], done - 1), l'))
      && (!Storable(entries[0]) ==> StorablePrefix(entries) == 0 && Abstract(Append(entries, done), l) == l)
  {
    StorableUnfold(entries);
    AbstractAppend(entries, done, l);
    hide *;
    var at := entries[0].logId.index - Base(l);
    if Storable(entries[0]) {
      var l' := l.(entries := Splice(l.entries, at, [entries[0]]));
      RestFollows(entries, l, l');
      AbstractAppend(entries[1..], done - 1, l');
      SpliceFirst(l.entries, at, entries, StorablePrefix(entries), done, At(entries[1..], l'));
    } else {
      SpliceNothing(l.entries);
    }
  }

  lemma SpliceFirst(before: seq<Entry>, at: nat, entries: seq<Entry>, stored: nat, done: nat, next: nat)
    requires at <= |before| && 0 < stored <= |entries| && done > 0
    requires next == if entries[1..] == [] then |Splice(before, at, [entries[0]])| else at + 1
    ensures var one := Splice(before, at, [entries[0]]);
      && next <= |one|
      && Splice(before, at, entries[..Min(done, stored)])
         == Splice(one, next, entries[1..][..Min(done - 1, stored - 1)])
  {
    var n := Min(done, stored);
    var one, rest := Splice(before, at, [entries[0]]), entries[1..][..n - 1];
    assert Min(done - 1, stored - 1) == n - 1;
    assert entries[..n] == [entries[0]] + rest;
    hide Splice;
    SpliceTwice(before, at, entries[0], rest);
    SpliceNothing(one);
  }

  lemma AbstractAppend(entries: seq<Entry>, done: nat, l: Log)
    ensures Abstract(Append(entries, done), l)
      == l.(entries := Splice(l.entries, At(entries, l), entries[..Min(done, StorablePrefix(entries))]))
  {
  }

  lemma SpliceNothing(entries: seq<Entry>)
    ensures forall at: nat :: at <= |entries| ==> Splice(entries, at, []) == entries
  {
  }

  lemma StorableUnfold(entries: seq<Entry>)
    requires entries != []
    ensures StorablePrefix(entries) == if Storable(entries[0]) then 1 + StorablePrefix(entries[1..]) else 0
  {
  }

  lemma RestFollows(entries: seq<Entry>, l: Log, l': Log)
    requires entries != [] && Follows(entries, l)
    requires var at := entries[0].logId.index - Base(l);
      l'.purged == l.purged && l'.entries == Splice(l.entries, at, [entries[0]])
    ensures var at := entries[0].logId.index - Base(l);
      && Follows(entries[1..], l') && at + 1 <= |l'.entries|
      && At(entries, l) == at
      && At(entries[1..], l') == if entries[1..] == [] then |l'.entries| else at + 1
  {
    var rest := entries[1..];
    assert rest != [] ==> rest[0].logId.index == entries[0].logId.index + 1;
    assert forall i :: 0 <= i < |rest| ==> rest[i] == entries[i + 1];
  }

  lemma AbstractAppendNothing(entries: seq<Entry>, done: nat, l: Log)
    requires entries == [] || done == 0
    ensures Abstract(Append(entries, done), l) == l && Take(AppendProgram(entries), done) == []
  {
    SpliceNothing(l.entries);
  }

  // An append, over entries that are there or right after the last, complete or cut short: the log
  // holds the part of the batch that got there in their place, and is still contiguous.
  lemma {:induction false} AppendMany<U>(sql: Sql<U>, db: Db<U>, l: Log, entries: seq<Entry>, done: nat)
    requires Stores(db, l) && Follows(entries, l)
    ensures var out := RunProgram(sql, Take(AppendProgram(entries), done), db);
      && Stores(out.db, Abstract(Append(entries, done), l))
      && (out.ok <==> Min(done, |entries|) <= StorablePrefix(entries))
    decreases |entries|
  {
    hide Stores, Exec, Abstract, RowStmt, AppendProgram, StorablePrefix, Take, Splice;
    if entries == [] || done == 0 {
      AbstractAppendNothing(entries, done, l);
    } else {
      hide RunProgram;
      AppendUnfold(sql, entries, done, db);
      AppendOne(sql, db, l, entries[0]);
      AbstractAppendUnfold(entries, done, l);
      hide Follows;
      if Storable(entries[0]) {
        var l' := l.(entries := Splice(l.entries, entries[0].logId.index - Base(l), [entries[0]]));
        AppendMany(sql, Exec(sql, RowStmt(entries[0]), db).value, l', entries[1..], done - 1);
      }
    }
  }

  // ---- An append on any table ----

  // `i` is the last of the first `n` entries with its index.
  predicate LastAt(entries: seq<Entry>, n: nat, i: nat)
    requires i < n <= |entries|
  {
    forall j :: i < j < n ==> entries[j].logId.index != entries[i].logId.index
  }

  // The row at each index of the first `n` entries holds the last of them for that index, in every
  // column; every other row is as it was.
  ghost predicate Wrote(rows: map<I64, Row>, entries: seq<Entry>, n: nat, rows': map<I64, Row>)
    requires n <= |entries|
  {
    && (forall i :: 0 <= i < n && LastAt(entries, n, i) ==> Shows(rows', entries[i]))
    && (forall k: I64 :: (forall i :: 0 <= i < n ==> entries[i].logId.index != k) ==>
          (k in rows' <==> k in rows) && (k in rows ==> rows'[k] == rows[k]))
  }

  predicate Shows(rows: map<I64, Row>, e: Entry) {
    && e.logId.index <= I64_MAX && e.logId.index in rows
    && var row := rows[e.logId.index];
       row.entry == e && row.nodeId == e.logId.leaderId.nodeId && row.term == e.logId.leaderId.term
  }

  lemma WroteFirst(rows: map<I64, Row>, entries: seq<Entry>, n: nat, one: map<I64, Row>, rows': map<I64, Row>)
    requires 0 < n <= |entries| && Shows(one, entries[0])
    requires Statements.OtherRowsSame(entries[0].logId.index, rows, one)
    requires Wrote(one, entries[1..], n - 1, rows')
    ensures Wrote(rows, entries, n, rows')
  {
    var rest := entries[1..];
    assert forall i :: 0 < i < n ==> entries[i] == rest[i - 1];
    forall i | 0 <= i < n && LastAt(entries, n, i) ensures Shows(rows', entries[i]) {
      if i > 0 {
        assert LastAt(rest, n - 1, i - 1);
      } else {
        assert forall j :: 0 <= j < n - 1 ==> rest[j].logId.index != entries[0].logId.index;
      }
    }
    forall k: I64 | (forall i :: 0 <= i < n ==> entries[i].logId.index != k)
      ensures (k in rows' <==> k in rows) && (k in rows ==> rows'[k] == rows[k])
    {
      assert k != entries[0].logId.index;
      assert forall i :: 0 <= i < n - 1 ==> rest[i].logId.index != k;
    }
  }

  // What an append leaves behind: the entries that got there are written, nothing else is touched,
  // and it succeeds exactly if each could be stored.
  ghost predicate Overwritten<U>(db: Db<U>, entries: seq<Entry>, done: nat, out: Outcome<U>)
    requires db.log.Some?
  {
    && out.db.kv == db.kv && out.db.user == db.user && out.db.log.Some?
    && Wrote(db.log.value, entries, Min(done, StorablePrefix(entries)), out.db.log.value)
    && (out.ok <==> Min(done, |entries|) <= StorablePrefix(entries))
  }

  lemma OverwrittenFirst<U>(db: Db<U>, one: Db<U>, entries: seq<Entry>, done: nat, out: Outcome<U>)
    requires db.log.Some? && one.log.Some? && one.kv == db.kv && one.user == db.user
    requires entries != [] && done > 0 && Storable(entries[0]) && Shows(one.log.value, entries[0])
    requires Statements.OtherRowsSame(entries[0].logId.index, db.log.value, one.log.value)
    requires Overwritten(one, entries[1..], done - 1, out)
    ensures Overwritten(db, entries, done, out)
  {
    StorableUnfold(entries);
    hide Wrote, StorablePrefix, Storable, Shows;
    WroteFirst(db.log.value, entries, Min(done, StorablePrefix(entries)), one.log.value, out.db.log.value);
  }

  lemma OverwrittenNothing<U>(db: Db<U>, entries: seq<Entry>, done: nat)
    requires db.log.Some?
    ensures entries == [] || done == 0 ==> Overwritten(db, entries, done, Outcome(db, true))
    ensures entries != [] && done > 0 && !Storable(entries[0]) ==> Overwritten(db, entries, done, Outcome(db, false))
  {
  }

  // On every table with a log, whatever it holds: an append, complete or cut short, writes over rows
  // that are there as well.
  lemma {:induction false} AppendOverwrites<U>(sql: Sql<U>, db: Db<U>, entries: seq<Entry>, done: nat)
    requires db.log.Some?
    ensures Overwritten(db, entries, done, RunProgram(sql, Take(AppendProgram(entries), done), db))
    decreases |entries|
  {
    OverwrittenNothing(db, entries, done);
    if entries == [] || done == 0 {
      AbstractAppendNothing(entries, done, Log(None, []));
    } else {
      hide *;
      AppendUnfold(sql, entries, done, db);
      OneOverwrites(sql, db, entries[0]);
      if Storable(entries[0]) {
        var one := Exec(sql, RowStmt(entries[0]), db).value;
        AppendOverwrites(sql, one, entries[1..], done - 1);
        OverwrittenFirst(db, one, entries, done, RunProgram(sql, Take(AppendProgram(entries[1..]), done - 1), one));
      }
    }
  }

  lemma OneOverwrites<U>(sql: Sql<U>, db: Db<U>, e: Entry)
    requires db.log.Some?
    ensures Exec(sql, RowStmt(e), db).Some? <==> Storable(e)
    ensures Storable(e) ==>
      var one := Exec(sql, RowStmt(e), db).value;
      && one.kv == db.kv && one.user == db.user && one.log.Some?
      && Shows(one.log.value, e) && Statements.OtherRowsSame(e.logId.index, db.log.value, one.log.value)
  {
    Statements.RowStatements(sql, e.logId.leaderId.nodeId, e.logId.index, e.logId.leaderId.term, e, db);
    hide Exec;
  }

  lemma RowsCutFrom(rows: map<I64, Row>, base: nat, entries: seq<Entry>, index: U64, n: nat)
    requires RowsHold(rows, base, entries) && base <= index && n == Clamp(index - base, |entries|)
    ensures RowsHold(RowsBelow(rows, index), base, entries[..n])
  {
  }

  // Moving the marker past `n` entries, or past the end.
  lemma RowsBehind(rows: map<I64, Row>, base: nat, entries: seq<Entry>, base': nat, n: nat)
    requires RowsHold(rows, base, entries) && base <= base' && n == Clamp(base' - base, |entries|)
    ensures RowsHold(rows, base', entries[n..])
  {
    var left := entries[n..];
    assert n < |entries| ==> n == base' - base;
    assert forall i :: 0 <= i < |left| ==> left[i] == entries[n + i];
    assert RunFrom(base', left);
  }

  lemma RowsDropUpTo(rows: map<I64, Row>, entries: seq<Entry>, index: U64)
    requires RowsHold(rows, index + 1, entries)
    ensures RowsHold(RowsAbove(rows, index), index + 1, entries)
    ensures forall k: I64 :: k in RowsAbove(rows, index) ==> k >= index + 1
  {
  }

  lemma RunOne<U>(sql: Sql<U>, stmt: Stmt, db: Db<U>)
    ensures RunProgram(sql, [stmt], db) ==
      match Exec(sql, stmt, db) {
        case None => Outcome(db, false)
        case Some(db') => Outcome(db', true)
      }
  {
    hide Exec;
    RunCons(sql, stmt, [], db);
    assert [stmt] + [] == [stmt];
  }

  lemma RunPair<U>(sql: Sql<U>, first: Stmt, second: Stmt, db: Db<U>)
    requires Exec(sql, first, db).Some?
    ensures RunProgram(sql, [first, second], db) == RunProgram(sql, [second], Exec(sql, first, db).value)
  {
    hide Exec;
    RunCons(sql, first, [second], db);
    assert [first] + [second] == [first, second];
  }

  lemma TruncateStep<U>(sql: Sql<U>, db: Db<U>, l: Log, id: LogId)
    requires Stores(db, l) && Base(l) <= id.index
    ensures var out := RunProgram(sql, TruncateProgram(id), db);
      Stores(out.db, Abstract(Truncate(id, 1), l)) && (out.ok <==> id.index <= I64_MAX)
  {
    var keep := Clamp(id.index - Base(l), |l.entries|);
    assert keep <= |l.entries|;
    hide RowsHold, RunProgram, Clamp;
    RunOne(sql, DeleteRowsFrom(id.index), db);
    if id.index <= I64_MAX {
      RowsCutFrom(db.log.value, Base(l), l.entries, id.index, keep);
      RowsReplaced(db, l, RowsBelow(db.log.value, id.index), l.entries[..keep]);
    } else {
      NothingBeyond(db.log.value, Base(l), l.entries, id.index);
      assert l.entries[..keep] == l.entries;
    }
  }

  // No entry has an index that cannot be bound.
  lemma NothingBeyond(rows: map<I64, Row>, base: nat, entries: seq<Entry>, index: U64)
    requires RowsHold(rows, base, entries) && index > I64_MAX && base <= index
    ensures Clamp(index - base, |entries|) == |entries|
  {
    GreatestRow(rows, base, entries);
  }

  lemma RowsReplaced<U>(db: Db<U>, l: Log, rows: map<I64, Row>, entries: seq<Entry>)
    requires Stores(db, l) && RowsHold(rows, Base(l), entries)
    ensures Stores(db.(log := Some(rows)), l.(entries := entries))
  {
    hide RowsHold;
  }

  // A purge cut after its first statement already reads as done; rows may be left behind.
  lemma PurgeCut<U>(sql: Sql<U>, db: Db<U>, l: Log, id: LogId)
    requires Stores(db, l) && Base(l) <= id.index + 1
    ensures var marked := RunProgram(sql, PurgeProgram(id)[..1], db).db;
      && Stores(marked, Abstract(Purge(id, 1), l))
      && marked.log == db.log
  {
    hide RowsHold;
    var mark := Upsert(LastPurgedIdKey, LogIdBlob(id));
    assert PurgeProgram(id)[..1] == [mark];
    RunOne(sql, mark, db);
    RowsBehind(db.log.value, Base(l), l.entries, id.index + 1, Clamp(id.index + 1 - Base(l), |l.entries|));
  }

  // A complete purge leaves no row at or below the marker. One whose index cannot be bound stops
  // after the marker.
  lemma PurgeStep<U>(sql: Sql<U>, db: Db<U>, l: Log, id: LogId)
    requires Stores(db, l) && Base(l) <= id.index + 1
    ensures var out := RunProgram(sql, PurgeProgram(id), db);
      && Stores(out.db, Abstract(Purge(id, 2), l))
      && (out.ok <==> id.index <= I64_MAX)
      && (out.ok ==> Clean(out.db, Abstract(Purge(id, 2), l)))
      && (!out.ok ==> out.db == RunProgram(sql, PurgeProgram(id)[..1], db).db)
  {
    hide RowsHold;
    var mark, delete := Upsert(LastPurgedIdKey, LogIdBlob(id)), DeleteRowsUpTo(id.index);
    var marked := Exec(sql, mark, db).value;
    PurgeCut(sql, db, l, id);
    assert PurgeProgram(id)[..1] == [mark];
    RunOne(sql, mark, db);
    RunPair(sql, mark, delete, db);
    RunOne(sql, delete, marked);
    if id.index <= I64_MAX {
      RowsDropUpTo(marked.log.value, Abstract(Purge(id, 1), l).entries, id.index);
    }
  }

  // ---- Main theorem: every run refines the abstract log ----

  function RunEvents<U>(sql: Sql<U>, events: seq<Event>, db: Db<U>): Db<U> {
    if events == [] then db
    else RunEvents(sql, events[1..], RunProgram(sql, Program(events[0]), db).db)
  }

  function AbstractRun(events: seq<Event>, l: Log): Log {
    if events == [] then l else AbstractRun(events[1..], Abstract(events[0], l))
  }

  ghost predicate LegalRun(events: seq<Event>, l: Log) {
    events != [] ==> Legal(events[0], l) && LegalRun(events[1..], Abstract(events[0], l))
  }

  lemma EventRefines<U>(sql: Sql<U>, ev: Event, db: Db<U>, l: Log)
    requires Stores(db, l) && Legal(ev, l)
    ensures Stores(RunProgram(sql, Program(ev), db).db, Abstract(ev, l))
  {
    hide Stores;
    match ev
    case Append(entries, done) => AppendMany(sql, db, l, entries, done);
    case Truncate(id, done) =>
      if done > 0 { TruncateStep(sql, db, l, id); }
    case Purge(id, done) =>
      if done == 1 { PurgeCut(sql, db, l, id); }
      if done > 1 { PurgeStep(sql, db, l, id); }
  }

  // For every run of appends, truncations and purges, each complete or cut by a crash after any
  // of its statements, the rows above the marker are one contiguous run that holds the abstract
  // log.
  lemma {:induction false} LogRunRefines<U>(sql: Sql<U>, events: seq<Event>, db: Db<U>, l: Log)
    requires Stores(db, l) && LegalRun(events, l)
    ensures Stores(RunEvents(sql, events, db), AbstractRun(events, l))
    decreases |events|
  {
    hide Stores, Legal, Abstract, Program;
    if events != [] {
      EventRefines(sql, events[0], db, l);
      LogRunRefines(sql, events[1..], RunProgram(sql, Program(events[0]), db).db, Abstract(events[0], l));
    }
  }

  // ---- What `get_log_state` reports along a run ----

  // `id` is the purge marker itself or the id of an entry.
  ghost predicate InLog(id: LogId, l: Log) {
    || l.purged == Some(id)
    || (Base(l) <= id.index < Base(l) + |l.entries| && l.entries[id.index - Base(l)].logId == id)
  }

  // Every purge that stops after its marker named an id of the log.
  ghost predicate CutsInLog(events: seq<Event>, l: Log) {
    events != [] ==>
      && (events[0].Purge? && (events[0].done == 1 || (events[0].done > 1 && events[0].id.index > I64_MAX)) ==>
            InLog(events[0].id, l))
      && CutsInLog(events[1..], Abstract(events[0], l))
  }

  lemma TidyMarked<U>(db: Db<U>, marked: Db<U>, l: Log, id: LogId)
    requires Stores(db, l) && Tidy(db, l) && Base(l) <= id.index + 1 && InLog(id, l)
    requires marked.log == db.log
    ensures Tidy(marked, Abstract(Purge(id, 1), l))
  {
    if l.purged != Some(id) {
      var k: I64 := l.entries[id.index - Base(l)].logId.index;
      assert k == id.index && k in db.log.value;
    }
  }

  lemma {:induction false} AppendKeepsBelow<U>(sql: Sql<U>, entries: seq<Entry>, done: nat, db: Db<U>, base: nat)
    requires db.log.Some? && forall i :: 0 <= i < |entries| ==> entries[i].logId.index >= base
    ensures var db' := RunProgram(sql, Take(AppendProgram(entries), done), db).db;
      && db'.log.Some?
      && forall k: I64 :: k < base ==>
          (k in db'.log.value <==> k in db.log.value) && (k in db.log.value ==> db'.log.value[k] == db.log.value[k])
    decreases |entries|
  {
    if entries != [] && done > 0 {
      AppendUnfold(sql, entries, done, db);
      if Exec(sql, RowStmt(entries[0]), db).Some? {
        AppendKeepsBelow(sql, entries[1..], done - 1, Exec(sql, RowStmt(entries[0]), db).value, base);
      }
    } else {
      AbstractAppendNothing(entries, done, Log(None, []));
    }
  }

  lemma TidyKept<U>(sql: Sql<U>, ev: Event, db: Db<U>, l: Log)
    requires Stores(db, l) && Tidy(db, l) && Legal(ev, l) && CutsInLog([ev], l)
    ensures var db' := RunProgram(sql, Program(ev), db).db;
      db'.log.Some? && Tidy(db', Abstract(ev, l))
  {
    var db' := RunProgram(sql, Program(ev), db).db;
    assert db.log.Some?;
    match ev
    case Append(entries, done) =>
      AppendKeepsBelow(sql, entries, done, db, Base(l));
      hide Stores, Tidy, RunProgram, AppendProgram, Take, Splice, StorablePrefix;
      TidyBelow(db, db', l, Abstract(ev, l));
    case Truncate(id, done) =>
      RunOne(sql, DeleteRowsFrom(id.index), db);
      hide Stores, Tidy, RunProgram;
      TidyBelow(db, db', l, Abstract(ev, l));
    case Purge(id, done) =>
      if done > 0 {
        hide Stores, Tidy, RunProgram, Abstract;
        TidyPurge(sql, db, l, id, done);
      }
  }

  // Tidiness is a matter of the rows below the end of the purged part.
  lemma TidyBelow<U>(db: Db<U>, db': Db<U>, l: Log, l': Log)
    requires db.log.Some? && db'.log.Some? && l'.purged == l.purged && Tidy(db, l)
    requires forall k: I64 :: k < Base(l) ==>
      (k in db'.log.value <==> k in db.log.value) && (k in db.log.value ==> db'.log.value[k] == db.log.value[k])
    ensures Tidy(db', l')
  {
  }

  lemma TidyPurge<U>(sql: Sql<U>, db: Db<U>, l: Log, id: LogId, done: nat)
    requires Stores(db, l) && Tidy(db, l) && Base(l) <= id.index + 1 && done > 0
    requires done == 1 || id.index > I64_MAX ==> InLog(id, l)
    ensures var db' := RunProgram(sql, Program(Purge(id, done)), db).db;
      db'.log.Some? && Tidy(db', Abstract(Purge(id, done), l))
  {
    PurgeCut(sql, db, l, id);
    PurgeStep(sql, db, l, id);
    assert Abstract(Purge(id, done), l) == Abstract(Purge(id, 1), l) == Abstract(Purge(id, 2), l);
    hide RowsHold, RunProgram, Abstract;
    if done == 1 || id.index > I64_MAX {
      TidyMarked(db, RunProgram(sql, PurgeProgram(id)[..1], db).db, l, id);
    }
  }

  lemma {:induction false} TidyRun<U>(sql: Sql<U>, events: seq<Event>, db: Db<U>, l: Log)
    requires Stores(db, l) && Tidy(db, l) && LegalRun(events, l) && CutsInLog(events, l)
    ensures var db', l' := RunEvents(sql, events, db), AbstractRun(events, l);
      Stores(db', l') && Tidy(db', l')
    decreases |events|
  {
    hide Legal, Abstract, Program, RowsHold, Tidy;
    if events != [] {
      assert CutsInLog([events[0]], l) by { assert [events[0]][1..] == []; }
      EventRefines(sql, events[0], db, l);
      TidyKept(sql, events[0], db, l);
      TidyRun(sql, events[1..], RunProgram(sql, Program(events[0]), db).db, Abstract(events[0], l));
    }
  }

  // From a newly created database, as long as no purge that reached past the end was cut:
  // `get_log_state` reports the bounds of the abstract log, the purged id at or below the last.
  lemma LogRunReports<U>(sql: Sql<U>, events: seq<Event>, db: Db<U>)
    requires db.log == Some(map[]) && LastPurgedIdKey !in db.kv
    requires LegalRun(events, Log(None, [])) && CutsInLog(events, Log(None, []))
    ensures var l := AbstractRun(events, Log(None, []));
      && GetLogState(RunEvents(sql, events, db)) == Ok(LogState(l.purged, LastId(l)))
      && NextIndex(l.purged) <= NextIndex(LastId(l))
  {
    var start := Log(None, []);
    assert Stores(db, start) && Tidy(db, start);
    hide Stores, Tidy;
    TidyRun(sql, events, db, start);
    LogStateAgrees(RunEvents(sql, events, db), AbstractRun(events, start));
  }

  // ---- Purging again, and the state in between ----

  // Re-running a purge from the point where a crash cut it ends exactly where an uninterrupted
  // purge ends, also when the purge reaches past the end of the log or cannot be bound.
  lemma PurgeRerun<U>(sql: Sql<U>, db: Db<U>, id: LogId, done: nat)
    ensures RunProgram(sql, PurgeProgram(id), RunProgram(sql, Take(PurgeProgram(id), done), db).db)
      == RunProgram(sql, PurgeProgram(id), db)
  {
    var mark, delete := Upsert(LastPurgedIdKey, LogIdBlob(id)), DeleteRowsUpTo(id.index);
    var marked := Exec(sql, mark, db).value;
    RunPair(sql, mark, delete, db);
    RunOne(sql, delete, marked);
    RunOne(sql, mark, db);
    assert PurgeProgram(id)[..1] == [mark];
    RunPair(sql, mark, delete, marked);
    assert marked.kv[LastPurgedIdKey := LogIdBlob(id)] == marked.kv;
    if db.log.Some? && id.index <= I64_MAX {
      var purged := Exec(sql, delete, marked).value;
      RunPair(sql, mark, delete, purged);
      assert purged.kv == marked.kv;
      RunOne(sql, delete, purged);
      assert RowsAbove(purged.log.value, id.index) == purged.log.value;
    }
  }

  // With the marker written and the rows not yet deleted (a crash in between, or an index that
  // cannot be bound), the reported purged id is at or below the reported last id exactly when
  // the table was empty or the purge did not reach past its last row.
  lemma MarkerOnlyBounds<U>(sql: Sql<U>, db: Db<U>, id: LogId)
    requires db.log.Some? && Consistent(db.log.value)
    ensures var marked := RunProgram(sql, PurgeProgram(id)[..1], db).db;
      && LastLogEntry(db).Ok? && GetLogState(marked).Ok?
      && var last, state := LastLogEntry(db).value, GetLogState(marked).value;
         && state.lastPurged == Some(id) && state.last == (if last.Some? then last else Some(id))
         && (NextIndex(state.lastPurged) <= NextIndex(state.last) <==> last.None? || id.index <= last.value.index)
  {
    var mark := Upsert(LastPurgedIdKey, LogIdBlob(id));
    assert PurgeProgram(id)[..1] == [mark];
    RunOne(sql, mark, db);
    LastLogEntryIs(db);
    LastLogEntryIs(Exec(sql, mark, db).value);
  }

  // A legal run that reaches the other side: one entry, then a purge past it that dies after its
  // marker. The purged id is reported after the last.
  lemma CutPastTheEnd<U>(sql: Sql<U>, db: Db<U>, e: Entry, id: LogId)
    requires db.log == Some(map[]) && LastPurgedIdKey !in db.kv
    requires e.logId.index == 0 && Storable(e) && id.index > 0
    ensures var events := [Append([e], 1), Purge(id, 1)];
      && LegalRun(events, Log(None, []))
      && GetLogState(RunEvents(sql, events, db)) == Ok(LogState(Some(id), Some(e.logId)))
      && NextIndex(Some(id)) > NextIndex(Some(e.logId))
  {
    var start := Log(None, []);
    var append, purge := Append([e], 1), Purge(id, 1);
    var events := [append, purge];
    var db1 := RunProgram(sql, Program(append), db).db;
    assert events[1..] == [purge] && [purge][1..] == [];
    assert Abstract(append, start) == Log(None, [e]);
    assert Legal(append, start) && Legal(purge, Log(None, [e]));
    assert LegalRun([purge], Log(None, [e]));
    assert RunEvents(sql, events, db) == RunEvents(sql, [purge], db1) == RunProgram(sql, Program(purge), db1).db;
    assert AppendProgram([e]) == [RowStmt(e)];
    assert Program(append) == [RowStmt(e)] && Program(purge) == PurgeProgram(id)[..1];
    OneEntryTable(sql, db, e);
    hide *;
    MarkerOnlyBounds(sql, db1, id);
  }

  lemma OneEntryTable<U>(sql: Sql<U>, db: Db<U>, e: Entry)
    requires db.log == Some(map[]) && e.logId.index == 0 && Storable(e)
    ensures var db1 := RunProgram(sql, [RowStmt(e)], db).db;
      db1.log.Some? && Consistent(db1.log.value) && LastLogEntry(db1) == Ok(Some(e.logId))
  {
    RunOne(sql, RowStmt(e), db);
    var db1 := RunProgram(sql, [RowStmt(e)], db).db;
    assert db1 == db.(log := Some(map[0 := RowOf(e)]));
    LastLogEntryIs(db1);
    var rows := db1.log.value;
    assert 0 in rows.Keys && IsGreatest(0, rows.Keys);
    assert Greatest(rows.Keys) == 0;
  }
}
