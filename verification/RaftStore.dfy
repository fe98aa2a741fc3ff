// The store's objects. Each method issues its statements one by one on a storage handle and is
// proved against the programs and steps whose crash and interleaving behaviour the other
// modules establish.
module Store {
  import opened RaftTypes
  import opened Sqlite
  import opened KeySets
  import opened LogTable
  import opened LogRange
  import opened Machine = StateMachine
  import opened SnapshotIds
  import Replica
  import Statements
  import Tasks = StorageTasks
  import Index = SnapshotIndex
  import Shipping = SnapshotShipping
  import Theorems = ReplicaTheorems
  import Loss = ReplicaLoss
  import Handles = ReplicaHandles
  import Serving = ReplicaServing
  import Calls = ReplicaCalls

  // One database behind its actor: every method is one task, hence atomic.
  class StorageHandle<U(!new)> {
    const sql: Sql<U>
    var db: Db<U>

    constructor (sql: Sql<U>, db: Db<U>)
      ensures this.sql == sql && this.db == db
    {
      this.sql, this.db := sql, db;
    }

    method Execute(stmt: Stmt) returns (ok: bool)
      modifies this
      ensures (db, ok) == Tasks.ExecuteTask(sql, stmt, old(db))
      ensures forall codec: Replica.Codec<U> ::
        Tasks.Perform(sql, codec, Tasks.Execute(stmt), old(db)) == (db, Tasks.Done(ok))
    {
      var after := Exec(sql, stmt, db);
      ok := after.Some?;
      if ok { db := after.value; }
    }

    method BumpCounter() returns (value: Result<Option<I64>>)
      modifies this
      ensures db == Bumped(old(db)) && value == BumpedValue(old(db))
      ensures forall codec: Replica.Codec<U> ::
        Tasks.Perform(sql, codec, Tasks.Bump, old(db)) == (db, Tasks.Counted(value))
    {
      value := BumpedValue(db);
      db := Bumped(db);
    }

    // `fetch_one` of a value by its key.
    method FetchValue(key: Key) returns (value: Option<Value>)
      ensures value.Some? <==> key in db.kv
      ensures value.Some? ==> value.value == db.kv[key]
      ensures forall codec: Replica.Codec<U> ::
        Tasks.Perform(sql, codec, Tasks.FetchValue(key), db) == (db, Tasks.Fetched(value))
    {
      value := if key in db.kv then Some(db.kv[key]) else None;
    }

    // `fetch_one` of the row with the greatest index.
    method FetchLast() returns (last: Result<Option<LogId>>)
      ensures last == LastLogEntry(db)
      ensures forall codec: Replica.Codec<U> ::
        Tasks.Perform(sql, codec, Tasks.FetchLast, db) == (db, Tasks.Last(last))
    {
      if db.log.None? {
        return Err;
      }
      var table := db.log.value;
      if table == map[] {
        return Ok(None);
      }
      var k := Greatest(table.Keys);
      return Ok(Some(LogId(LeaderId(CastToU64(table[k].term), CastToU64(table[k].nodeId)), CastToU64(k))));
    }

    // `fetch_all` of a range query: it pulls the rows from the cursor one at a time.
    method FetchEntries(range: Range) returns (r: Result<seq<Entry>>)
      ensures r == TryGetLogEntries(db, range)
      ensures forall codec: Replica.Codec<U> ::
        Tasks.Perform(sql, codec, Tasks.FetchRange(range), db) == (db, Tasks.Rows(r))
    {
      RangeTask(sql, db, range);
      hide Tasks.Perform, Ascending;
      if db.log.None? {
        return Err;
      }
      var table := db.log.value;
      var cursor := Ascending(SelectedKeys(table, range));
      var rows: seq<Entry> := [];
      var i := 0;
      while i < |cursor|
        invariant 0 <= i <= |cursor|
        invariant rows == SelectEntries(table, cursor)[..i]
        decreases |cursor| - i
      {
        assert cursor[i] in cursor;
        rows := rows + [table[cursor[i]].entry];
        i := i + 1;
      }
      assert SelectEntries(table, cursor)[..i] == SelectEntries(table, cursor);
      return Ok(rows);
    }

    // The tables are created if they are missing and left alone otherwise.
    method CreateLogTable()
      modifies this
      ensures db == WithLogTable(old(db))
      ensures db.log.Some? && db.kv == old(db).kv && db.user == old(db).user
      ensures db.log.value == if old(db).log.Some? then old(db).log.value else map[]
    {
      if db.log.None? {
        db := db.(log := Some(map[]));
      }
    }

    method SerializeDb(codec: Replica.Codec<U>) returns (bytes: seq<Byte>)
      ensures bytes == codec.serialize(db)
      ensures Tasks.Perform(sql, codec, Tasks.Serialize, db) == (db, Tasks.Image(bytes))
    {
      bytes := codec.serialize(db);
    }

    method LoadFromSerialized(codec: Replica.Codec<U>, bytes: seq<Byte>) returns (ok: bool)
      modifies this
      ensures match codec.deserialize(bytes) {
        case None => !ok && db == old(db)
        case Some(image) => ok && db == image
      }
      ensures Tasks.Perform(sql, codec, Tasks.LoadImage(bytes), old(db)) == (db, Tasks.Done(ok))
    {
      var image := codec.deserialize(bytes);
      ok := image.Some?;
      if ok { db := image.value; }
    }
  }

  lemma RangeTask<U(!new)>(sql: Sql<U>, db: Db<U>, range: Range)
    ensures forall codec: Replica.Codec<U> ::
      Tasks.Perform(sql, codec, Tasks.FetchRange(range), db) == (db, Tasks.Rows(TryGetLogEntries(db, range)))
  {
  }

  class StateMachine<U(!new)> {
    const data: StorageHandle<U>
    var lastAppliedLog: Option<LogId>
    var lastMembership: EffectiveMembership

    constructor (data: StorageHandle<U>, applied: Option<LogId>, membership: EffectiveMembership)
      ensures this.data == data && lastAppliedLog == applied && lastMembership == membership
    {
      this.data, lastAppliedLog, lastMembership := data, applied, membership;
    }

    ghost function Value(): Sm<U>
      reads this, data
    {
      Sm(data.db, lastAppliedLog, lastMembership)
    }

    method SetLastAppliedLog(id: LogId)
      modifies this`lastAppliedLog, data
      ensures Value() == RunActions(data.sql,
        [Commit(Upsert(LastLogKey, LogIdBlob(id))), RememberApplied(id)], old(Value())).sm
      ensures AppliedInSync(Value())
    {
      ghost var a := Commit(Upsert(LastLogKey, LogIdBlob(id)));
      ghost var b := RememberApplied(id);
      RunTwo(data.sql, a, b, Value());
      var ok := data.Execute(Upsert(LastLogKey, LogIdBlob(id)));
      lastAppliedLog := Some(id);
    }

    method SetLastMembership(membership: EffectiveMembership)
      modifies this`lastMembership, data
      ensures Value() == RunActions(data.sql,
        [Commit(Upsert(LastMembershipKey, MembershipBlob(membership))), RememberMembership(membership)],
        old(Value())).sm
      ensures MembershipInSync(Value())
    {
      ghost var a := Commit(Upsert(LastMembershipKey, MembershipBlob(membership)));
      ghost var b := RememberMembership(membership);
      RunTwo(data.sql, a, b, Value());
      var ok := data.Execute(Upsert(LastMembershipKey, MembershipBlob(membership)));
      lastMembership := membership;
    }
  }

  lemma RunTwo<U>(sql: Sql<U>, a: Action, b: Action, sm: Sm<U>)
    requires Do(sql, a, sm).Some? && Do(sql, b, Do(sql, a, sm).value).Some?
    ensures RunActions(sql, [a, b], sm) == Run(Do(sql, b, Do(sql, a, sm).value).value, true)
  {
    hide Do;
    var two, mid := [a, b], Do(sql, a, sm).value;
    assert two[0] == a && two[1..] == [b];
    RunSingle(sql, b, mid);
    assert RunActions(sql, two, sm) == RunActions(sql, two[1..], mid);
  }

  datatype Response = Response

  // What `get_and_inc_snapshot_index` does to the log database when nothing interleaves.
  function TakeIndex<U>(db: Db<U>): (Db<U>, Result<U64>) {
    match BumpedValue(db)
    case Err => (Bumped(db), Err)
    case Ok(Some(v)) => (Bumped(db), Ok(CastToU64(v)))
    case Ok(None) => (db.(kv := db.kv[SnapshotIndexKey := Counter(0)]), Ok(0))
  }

  // Call `c`, made in `s` with nothing interleaved, as the concurrent model sees it.
  function CallAlone<U>(sql: Sql<U>, s: Index.State<U>, c: nat): Index.State<U> {
    Index.RunSteps(sql, [Index.Begin(c), Index.Update(c), Index.Insert(c), Index.Return(c)], s)
  }

  // The call has returned this, and an index that it returned was never handed out before.
  ghost predicate Gives<U>(s: Index.State<U>, s': Index.State<U>, c: nat, db: Db<U>, r: Result<U64>) {
    && s'.logDb == db && c in s'.calls
    && match r {
        case Err => s'.calls[c] == Index.Failed
        case Ok(v) =>
          && s'.calls[c].Returned? && s'.calls[c].index >= 0 && v == s'.calls[c].index
          && forall d :: d in s.calls ==> Index.Taken(s.calls[d]) != Some(s'.calls[c].index)
       }
  }

  // A call that nothing interleaves with takes the index the concurrent model gives it.
  lemma TakeIndexIsSteps<U>(sql: Sql<U>, s: Index.State<U>, c: nat)
    requires Index.Inv(s) && c !in s.calls
    ensures Gives(s, CallAlone(sql, s, c), c, TakeIndex(s.logDb).0, TakeIndex(s.logDb).1)
  {
    var steps := [Index.Begin(c), Index.Update(c), Index.Insert(c), Index.Return(c)];
    assert steps[1..][1..] == steps[2..] && steps[2..][1..] == steps[3..] && steps[3..][1..] == [];
    var s1 := Index.Next(sql, steps[0], s);
    var s2 := Index.Next(sql, steps[1], s1);
    var s3 := Index.Next(sql, steps[2], s2);
    assert Index.RunSteps(sql, steps, s) == Index.RunSteps(sql, steps[1..], s1);
    assert Index.RunSteps(sql, steps[1..], s1) == Index.RunSteps(sql, steps[2..], s2);
    assert Index.RunSteps(sql, steps[2..], s2) == Index.RunSteps(sql, steps[3..], s3);
    assert Index.RunSteps(sql, steps[3..], s3) == Index.Next(sql, steps[3], s3);
    if BumpedValue(s.logDb) == Ok(None) { assert Bumped(s.logDb) == s.logDb; }
  }

  // No log id, no configuration and no node.
  predicate NoMembership(m: EffectiveMembership) {
    m.logId == None && m.membership.configs == [] && m.membership.nodes == map[]
  }

  // What the object holds of a state of the step system: position and history are not part of it.
  datatype Held<+U> = Held(
    shared: bool, logDb: Db<U>, dataDb: Db<U>,
    applied: Option<LogId>, membership: EffectiveMembership, file: Option<seq<Byte>>)

  ghost function StateOf<U>(r: Replica.Replica<U>): Held<U> {
    Held(r.store.shared, r.store.logDb, Replica.Data(r.store), r.applied, r.membership, r.file)
  }

  class RaftStore<U(!new)> {
    const log: StorageHandle<U>
    const stateMachine: StateMachine<U>
    const codec: Replica.Codec<U>
    const leaderText: LeaderId -> string
    var snapshotFile: Option<seq<Byte>>

    constructor (log: StorageHandle<U>, stateMachine: StateMachine<U>, codec: Replica.Codec<U>,
                 leaderText: LeaderId -> string, snapshotFile: Option<seq<Byte>>)
      ensures this.log == log && this.stateMachine == stateMachine && this.codec == codec
      ensures this.leaderText == leaderText && this.snapshotFile == snapshotFile
    {
      this.log, this.stateMachine, this.codec := log, stateMachine, codec;
      this.leaderText, this.snapshotFile := leaderText, snapshotFile;
    }

    ghost function State(): Held<U>
      reads this, log, stateMachine, stateMachine.data
    {
      Held(log == stateMachine.data, log.db, stateMachine.data.db,
           stateMachine.lastAppliedLog, stateMachine.lastMembership, snapshotFile)
    }

    // ---- Log and vote ----

    method AppendToLog(entries: seq<Entry>) returns (ok: bool)
      modifies log
      ensures Outcome(log.db, ok) == RunProgram(log.sql, AppendProgram(entries), old(log.db))
      ensures forall env: Replica.Env<U>, r: Replica.Replica<U> :: old(State()) == StateOf(r) && env.sql == log.sql ==>
        State() == StateOf(Calls.AfterProgram(env, AppendProgram(entries), r))
      ensures old(log.db).log.Some? ==>
        && log.db.kv == old(log.db).kv && log.db.user == old(log.db).user && log.db.log.Some?
        && Wrote(old(log.db).log.value, entries, StorablePrefix(entries), log.db.log.value)
        && (ok <==> StorablePrefix(entries) == |entries|)
    {
      if log.db.log.Some? { AppendOverwrites(log.sql, log.db, entries, |entries|); }
      AppendLength(entries);
      hide Wrote, StorablePrefix, RunProgram, AppendProgram, Take;
      ok := AppendRows(entries);
      forall env: Replica.Env<U>, r: Replica.Replica<U> | old(State()) == StateOf(r) && env.sql == log.sql
        ensures State() == StateOf(Calls.AfterProgram(env, AppendProgram(entries), r))
      {
        Calls.AppendWrites(entries);
        Calls.ProgramIsSteps(env, AppendProgram(entries), r);
      }
    }

    // The loop over the entries.
    method AppendRows(entries: seq<Entry>) returns (ok: bool)
      modifies log
      ensures Outcome(log.db, ok) == RunProgram(log.sql, AppendProgram(entries), old(log.db))
    {
      var i := 0;
      ok := true;
      assert entries[0..] == entries;
      while ok && i < |entries|
        invariant 0 <= i <= |entries|
        invariant RunProgram(log.sql, AppendProgram(entries), old(log.db))
          == if ok then RunProgram(log.sql, AppendProgram(entries[i..]), log.db) else Outcome(log.db, false)
        decreases |entries| - i, ok
      {
        var id := entries[i].logId;
        assert entries[i..][1..] == entries[i + 1..];
        ok := log.Execute(UpsertRow(id.leaderId.nodeId, id.index, id.leaderId.term, entries[i]));
        if ok {
          i := i + 1;
        }
      }
      assert ok ==> entries[i..] == [];
    }

    method DeleteConflictLogsSince(id: LogId) returns (ok: bool)
      modifies log
      ensures Outcome(log.db, ok) == RunProgram(log.sql, TruncateProgram(id), old(log.db))
      ensures forall env: Replica.Env<U>, r: Replica.Replica<U> :: old(State()) == StateOf(r) && env.sql == log.sql ==>
        State() == StateOf(Calls.AfterProgram(env, TruncateProgram(id), r))
      ensures ok <==> old(log.db).log.Some? && id.index <= I64_MAX
      ensures ok ==>
        && log.db.kv == old(log.db).kv && log.db.user == old(log.db).user && log.db.log.Some?
        && Statements.RowsLeftBelow(id.index, old(log.db).log.value, log.db.log.value)
      ensures !ok ==> log.db == old(log.db)
    {
      Statements.RowStatements(log.sql, 0, id.index, 0, Entry(id, Blank), log.db);
      RunOne(log.sql, DeleteRowsFrom(id.index), log.db);
      ok := log.Execute(DeleteRowsFrom(id.index));
      forall env: Replica.Env<U>, r: Replica.Replica<U> | old(State()) == StateOf(r) && env.sql == log.sql
        ensures State() == StateOf(Calls.AfterProgram(env, TruncateProgram(id), r))
      {
        Calls.ProgramIsSteps(env, TruncateProgram(id), r);
      }
    }

    method PurgeLogsUpto(id: LogId) returns (ok: bool)
      modifies log
      ensures Outcome(log.db, ok) == RunProgram(log.sql, PurgeProgram(id), old(log.db))
      ensures forall env: Replica.Env<U>, r: Replica.Replica<U> :: old(State()) == StateOf(r) && env.sql == log.sql ==>
        State() == StateOf(Calls.AfterProgram(env, PurgeProgram(id), r))
      ensures FetchLogId(LastPurgedIdKey, log.db) == Ok(Some(id))
      ensures Statements.OtherKeysSame(LastPurgedIdKey, old(log.db).kv, log.db.kv) && log.db.user == old(log.db).user
      ensures ok <==> old(log.db).log.Some? && id.index <= I64_MAX
      ensures ok ==>
        log.db.log.Some? && Statements.RowsLeftAbove(id.index, old(log.db).log.value, log.db.log.value)
      ensures !ok ==> log.db.log == old(log.db).log
    {
      RunPair(log.sql, PurgeProgram(id)[0], PurgeProgram(id)[1], log.db);
      ok := log.Execute(Upsert(LastPurgedIdKey, LogIdBlob(id)));
      RunOne(log.sql, DeleteRowsUpTo(id.index), log.db);
      ok := log.Execute(DeleteRowsUpTo(id.index));
      forall env: Replica.Env<U>, r: Replica.Replica<U> | old(State()) == StateOf(r) && env.sql == log.sql
        ensures State() == StateOf(Calls.AfterProgram(env, PurgeProgram(id), r))
      {
        Calls.ProgramIsSteps(env, PurgeProgram(id), r);
      }
    }

    // The bounds of the stored log, if it has entries or the table is tidy.
    method GetLogState() returns (r: Result<LogState>)
      ensures r == LogTable.GetLogState(log.db)
      ensures forall l :: Stores(log.db, l) && (l.entries != [] || Tidy(log.db, l)) ==>
        r == Ok(LogState(l.purged, LastId(l)))
    {
      forall l | Stores(log.db, l) && (l.entries != [] || Tidy(log.db, l))
        ensures LogTable.GetLogState(log.db) == Ok(LogState(l.purged, LastId(l)))
      {
        LogStateAgrees(log.db, l);
      }
      var last := log.FetchLast();
      if last.Err? {
        return Err;
      }
      var purged := log.FetchValue(LastPurgedIdKey);
      match purged
      case None => return Ok(LogState(None, last.value));
      case Some(LogIdBlob(id)) => return Ok(LogState(Some(id), if last.value.Some? then last.value else Some(id)));
      case Some(_) => return Err;
    }

    method SaveVote(vote: Vote)
      modifies log
      ensures FetchVote(log.db) == Ok(Some(vote))
      ensures Statements.OtherKeysSame(VoteKey, old(log.db).kv, log.db.kv)
      ensures log.db.log == old(log.db).log && log.db.user == old(log.db).user
      ensures forall env: Replica.Env<U>, r: Replica.Replica<U> :: old(State()) == StateOf(r) ==>
        State() == StateOf(Replica.Next(env, Replica.SaveVote(vote), r))
    {
      var ok := log.Execute(Upsert(VoteKey, VoteBlob(vote)));
    }

    // The vote last saved, for a store with separate handles or without installs.
    method ReadVote() returns (vote: Result<Option<Vote>>)
      ensures vote == FetchVote(log.db)
      ensures forall env: Replica.Env<U>, steps, shared, inMemory ::
        State() == StateOf(Theorems.RunOf(env, steps, shared, inMemory)) && (shared ==> Loss.NoInstall(steps)) ==>
          vote == Ok(Handles.LastSaved(steps, None))
    {
      var value := log.FetchValue(VoteKey);
      match value {
      case None => vote := Ok(None);
      case Some(VoteBlob(v)) => vote := Ok(Some(v));
      case Some(_) => vote := Err;
      }
      forall env: Replica.Env<U>, steps, shared, inMemory
        | State() == StateOf(Theorems.RunOf(env, steps, shared, inMemory)) && (shared ==> Loss.NoInstall(steps))
        ensures vote == Ok(Handles.LastSaved(steps, None))
      {
        Handles.VoteKept(env, steps, shared, inMemory);
      }
    }

    method TryGetLogEntries(range: Range) returns (r: Result<seq<Entry>>)
      ensures r == LogRange.TryGetLogEntries(log.db, range)
    {
      r := log.FetchEntries(range);
    }

    // ---- The state machine ----

    // One response per entry, or the error of the first rejected statement.
    method ApplyToStateMachine(entries: seq<Entry>) returns (r: Result<seq<Response>>)
      modifies stateMachine, stateMachine.data
      ensures var run := RunActions(stateMachine.data.sql, BatchActions(entries), old(stateMachine.Value()));
        && stateMachine.Value() == run.sm
        && (r.Ok? <==> run.ok)
        && (r.Ok? ==> |r.value| == |entries|)
      ensures forall env: Replica.Env<U>, before: Replica.Replica<U> ::
        old(State()) == StateOf(before) && env.sql == stateMachine.data.sql && Calls.Ready(env, before, entries) ==>
          State() == StateOf(Calls.AfterBatch(env, entries, before))
    {
      r := ApplyEntries(entries);
      forall env: Replica.Env<U>, before: Replica.Replica<U>
        | old(State()) == StateOf(before) && env.sql == stateMachine.data.sql && Calls.Ready(env, before, entries)
        ensures State() == StateOf(Calls.AfterBatch(env, entries, before))
      {
        Calls.BatchIsSteps(env, before, entries);
        Calls.BatchKeepsRest(env, before, |BatchActions(entries)|);
      }
    }

    // The loop over the entries.
    method ApplyEntries(entries: seq<Entry>) returns (r: Result<seq<Response>>)
      modifies stateMachine, stateMachine.data
      ensures var run := RunActions(stateMachine.data.sql, BatchActions(entries), old(stateMachine.Value()));
        && stateMachine.Value() == run.sm
        && (r.Ok? <==> run.ok)
        && (r.Ok? ==> |r.value| == |entries|)
    {
      var sql := stateMachine.data.sql;
      var res: seq<Response> := [];
      var i := 0;
      ghost var start := stateMachine.Value();
      assert entries[0..] == entries;
      while i < |entries|
        invariant 0 <= i <= |entries| == |entries| && |res| == i
        invariant RunActions(sql, BatchActions(entries), start)
          == RunActions(sql, BatchActions(entries[i..]), stateMachine.Value())
        decreases |entries| - i
      {
        var entry := entries[i];
        ghost var acts, before := EntryActions(entry), stateMachine.Value();
        assert entries[i..][1..] == entries[i + 1..];
        RunAppend(sql, acts, BatchActions(entries[i + 1..]), before);
        RunAppend(sql, acts[..2], acts[2..], before);
        assert acts[..2] + acts[2..] == acts;
        RunTwo(sql, acts[0], acts[1], before);
        assert acts[..2] == [acts[0], acts[1]];
        stateMachine.SetLastAppliedLog(entry.logId);
        match entry.payload {
        case Blank =>
          res := res + [Response];
        case Normal(text, params) =>
          RunSingle(sql, Commit(UserSql(text, params)), stateMachine.Value());
          assert acts[2..] == [Commit(UserSql(text, params))];
          var ok := stateMachine.data.Execute(UserSql(text, params));
          if !ok {
            return Err;
          }
          res := res + [Response];
        case MembershipChange(m) =>
          var em := EffectiveMembership(Some(entry.logId), m);
          RunTwo(sql, acts[2], acts[3], stateMachine.Value());
          assert acts[2..] == [acts[2], acts[3]];
          stateMachine.SetLastMembership(em);
          res := res + [Response];
        }
        i := i + 1;
      }
      assert entries[i..] == [];
      return Ok(res);
    }

    // What a reopen would load as well, while no entry is being applied and if no install came since
    // the last open.
    method LastAppliedState() returns (applied: Option<LogId>, membership: EffectiveMembership)
      ensures applied == stateMachine.lastAppliedLog && membership == stateMachine.lastMembership
      ensures forall env: Replica.Env<U>, shared, inMemory ::
        State() == StateOf(Replica.Fresh(env, shared, inMemory)) ==> applied == None && NoMembership(membership)
      ensures forall env: Replica.Env<U>, steps, shared, inMemory ::
        var r := Theorems.RunOf(env, steps, shared, inMemory);
        Replica.ValidEnv(env) && State() == StateOf(r) && (r.done == 0 || r.halted) && !r.since.installed ==>
          Load(stateMachine.data.db) == Ok(Sm(stateMachine.data.db, applied, membership))
    {
      applied, membership := stateMachine.lastAppliedLog, stateMachine.lastMembership;
      forall env: Replica.Env<U>, steps, shared, inMemory
        | Replica.ValidEnv(env) && State() == StateOf(Theorems.RunOf(env, steps, shared, inMemory))
        ensures var r := Theorems.RunOf(env, steps, shared, inMemory);
          (r.done == 0 || r.halted) && !r.since.installed ==>
            Load(stateMachine.data.db) == Ok(Sm(stateMachine.data.db, applied, membership))
      {
        hide Theorems.RunOf, Load;
        ReopenLoads(env, steps, shared, inMemory);
      }
    }

    // ---- Snapshots ----

    method GetAndIncSnapshotIndex() returns (r: Result<U64>)
      modifies log
      ensures (log.db, r) == TakeIndex(old(log.db))
      ensures forall s: Index.State<U>, c :: s.logDb == old(log.db) && Index.Inv(s) && c !in s.calls ==>
        Gives(s, CallAlone(log.sql, s, c), c, log.db, r)
    {
      forall s: Index.State<U>, c | s.logDb == log.db && Index.Inv(s) && c !in s.calls
        ensures Gives(s, CallAlone(log.sql, s, c), c, TakeIndex(s.logDb).0, TakeIndex(s.logDb).1)
      {
        TakeIndexIsSteps(log.sql, s, c);
      }
      hide Gives, CallAlone;
      var value := log.BumpCounter();
      match value
      case Err => return Err;
      case Ok(Some(v)) => return Ok(CastToU64(v));
      case Ok(None) =>
        var ok := log.Execute(InsertCounter);
        return Ok(0);
    }

    // The metadata names the markers in memory and a new index; it is stored in the live database
    // and the bytes are that database, so the snapshot contains its own description.
    method BuildSnapshot() returns (r: Result<Replica.Published>)
      modifies this`snapshotFile, log, stateMachine.data
      ensures forall env: Replica.Env<U>, before: Replica.Replica<U> ::
        old(State()) == StateOf(before) && before.builder.Idle?
        && env.codec == codec && env.leaderText == leaderText ==>
          var alone := Replica.SoloBuild(env, before);
          && State() == StateOf(alone)
          && alone.published == if r.Ok? then Some(r.value) else before.published
      ensures r.Ok? ==>
        && r.value.meta.lastLogId == stateMachine.lastAppliedLog
        && r.value.meta.lastMembership == stateMachine.lastMembership
        && FetchMeta(stateMachine.data.db) == Ok(Some(r.value.meta))
        && r.value.bytes == codec.serialize(stateMachine.data.db)
        && snapshotFile == Some(Replica.Overwrite(old(snapshotFile), r.value.bytes))
      ensures r.Err? <==>
        && SnapshotIndexKey in old(log.db).kv
        && !(old(log.db).kv[SnapshotIndexKey].Counter? && old(log.db).kv[SnapshotIndexKey].n < I64_MAX)
      ensures r.Ok? ==>
        && SnapshotIndexKey in log.db.kv && log.db.kv[SnapshotIndexKey].Counter?
        && log.db.kv[SnapshotIndexKey].n == Limit(old(log.db).kv) + 1
        && ReadId(r.value.meta.snapshotId)
           == var index := CastToU64(log.db.kv[SnapshotIndexKey].n);
              match stateMachine.lastAppliedLog
              case Some(id) => AppliedAt(leaderText(id.leaderId), id.index, index)
              case None => NothingApplied(index)
    {
      TakenIsCounter(log.db);
      if TakeIndex(log.db).1.Ok? {
        SnapshotIdReads(leaderText, stateMachine.lastAppliedLog, TakeIndex(log.db).1.value,
                        SnapshotId(leaderText, stateMachine.lastAppliedLog, TakeIndex(log.db).1.value));
      }
      r := Build();
      forall env: Replica.Env<U>, before: Replica.Replica<U>
        | old(State()) == StateOf(before) && before.builder.Idle? && env.codec == codec && env.leaderText == leaderText
        ensures var alone := Replica.SoloBuild(env, before);
          State() == StateOf(alone) && alone.published == if r.Ok? then Some(r.value) else before.published
      {
        SoloBuildIs(env, before);
      }
    }

    // The statements of a build.
    method Build() returns (r: Result<Replica.Published>)
      modifies this`snapshotFile, log, stateMachine.data
      ensures var (counted, index) := TakeIndex(old(log.db));
        var data := if log == stateMachine.data then counted else old(stateMachine.data.db);
        if index.Err? then
          && r.Err? && log.db == counted && stateMachine.data.db == data && snapshotFile == old(snapshotFile)
        else
          var meta := SnapshotMeta(stateMachine.lastAppliedLog, stateMachine.lastMembership,
                                   SnapshotId(leaderText, stateMachine.lastAppliedLog, index.value));
          && stateMachine.data.db == Replica.WithMeta(data, meta)
          && (log != stateMachine.data ==> log.db == counted)
          && r == Ok(Replica.Published(meta, codec.serialize(stateMachine.data.db)))
          && snapshotFile == Some(Replica.Overwrite(old(snapshotFile), r.value.bytes))
    {
      var applied := stateMachine.lastAppliedLog;
      var membership := stateMachine.lastMembership;
      var index := GetAndIncSnapshotIndex();
      if index.Err? {
        return Err;
      }
      var meta := SnapshotMeta(applied, membership, SnapshotId(leaderText, applied, index.value));
      var ok := stateMachine.data.Execute(Upsert(SnapshotMetaKey, MetaBlob(meta)));
      var bytes := stateMachine.data.SerializeDb(codec);
      snapshotFile := Some(Replica.Overwrite(snapshotFile, bytes));
      return Ok(Replica.Published(meta, bytes));
    }

    // Memory and the snapshot file stay as they were.
    method InstallSnapshot(meta: SnapshotMeta, bytes: seq<Byte>) returns (ok: bool)
      modifies stateMachine.data
      ensures match Shipping.Install(codec, meta, bytes) {
        case Err => !ok && stateMachine.data.db == old(stateMachine.data.db)
        case Ok(received) => ok && stateMachine.data.db == received
      }
      ensures forall env: Replica.Env<U>, r: Replica.Replica<U>, image: Db<U> ::
        old(State()) == StateOf(r) && Replica.CanReceive(env, r, meta, image) && env.codec == codec
        && bytes != [] && codec.deserialize(bytes) == Some(image) ==>
          ok && State() == StateOf(Calls.AfterInstall(env, meta, image, r))
    {
      if bytes == [] {
        return false;
      }
      ok := stateMachine.data.LoadFromSerialized(codec, bytes);
      if ok {
        ok := stateMachine.data.Execute(Upsert(SnapshotMetaKey, MetaBlob(meta)));
      }
      forall env: Replica.Env<U>, r: Replica.Replica<U>, image: Db<U>
        | old(State()) == StateOf(r) && Replica.CanReceive(env, r, meta, image) && env.codec == codec
          && bytes != [] && codec.deserialize(bytes) == Some(image)
        ensures ok && State() == StateOf(Calls.AfterInstall(env, meta, image, r))
      {
        Calls.InstallIsSteps(env, r, meta, image, bytes);
      }
    }

    // The last snapshot published, under the condition `ServedIsPublished` gives.
    method GetCurrentSnapshot() returns (served: Result<Option<Replica.Published>>)
      ensures served == Serving.GetCurrentSnapshot(stateMachine.data.db, snapshotFile)
      ensures forall env: Replica.Env<U>, steps, shared, inMemory ::
        var r := Theorems.RunOf(env, steps, shared, inMemory);
        Replica.ValidEnv(env) && Loss.NoInstall(steps) && State() == StateOf(r) ==>
          (served == Ok(r.published)
           <==> r.published.None? || (!r.shrunk && !r.torn && !Replica.Describing(r.builder)))
    {
      forall env: Replica.Env<U>, steps, shared, inMemory
        | Replica.ValidEnv(env) && Loss.NoInstall(steps)
          && State() == StateOf(Theorems.RunOf(env, steps, shared, inMemory))
        ensures var r := Theorems.RunOf(env, steps, shared, inMemory);
          Serving.GetCurrentSnapshot(stateMachine.data.db, snapshotFile) == Ok(r.published)
          <==> r.published.None? || (!r.shrunk && !r.torn && !Replica.Describing(r.builder))
      {
        Serving.ServedIsPublished(env, steps, shared, inMemory);
      }
      var meta := stateMachine.data.FetchValue(SnapshotMetaKey);
      match meta
      case None => return Ok(None);
      case Some(MetaBlob(m)) =>
        if snapshotFile.None? {
          return Ok(None);
        }
        return Ok(Some(Replica.Published(m, snapshotFile.value)));
      case Some(_) => return Err;
    }
  }

  lemma AppendLength(entries: seq<Entry>)
    ensures |AppendProgram(entries)| == |entries| && Take(AppendProgram(entries), |entries|) == AppendProgram(entries)
  {
  }

  // The index taken is the counter as it is then stored, one above what it was. There is none once the
  // counter has run out of 64-bit integers.
  lemma TakenIsCounter<U>(db: Db<U>)
    ensures TakeIndex(db).1.Err? <==>
      && SnapshotIndexKey in db.kv && !(db.kv[SnapshotIndexKey].Counter? && db.kv[SnapshotIndexKey].n < I64_MAX)
    ensures TakeIndex(db).1.Ok? ==>
      var kv := TakeIndex(db).0.kv;
      && SnapshotIndexKey in kv && kv[SnapshotIndexKey].Counter?
      && kv[SnapshotIndexKey].n == Limit(db.kv) + 1
      && TakeIndex(db).1.value == CastToU64(kv[SnapshotIndexKey].n)
  {
  }

  lemma ReopenLoads<U>(env: Replica.Env<U>, steps: seq<Replica.Step<U>>, shared: bool, inMemory: bool)
    requires Replica.ValidEnv(env)
    ensures var r := Theorems.RunOf(env, steps, shared, inMemory);
      (r.done == 0 || r.halted) && !r.since.installed ==>
        Load(Replica.Data(r.store)) == Ok(Theorems.Memory(r))
  {
    Theorems.MarkersAgree(env, steps, shared, inMemory);
    Theorems.ReachableInv(env, steps, shared, inMemory);
    assert Replica.PositionInv(env, Theorems.RunOf(env, steps, shared, inMemory));
    hide Theorems.RunOf, Replica.DiskInv, Replica.MemoryInv, Replica.BuilderInv, Replica.FileInv;
  }

  // An empty log that accepts entries from index 0 on: no id is reported, every range reads nothing.
  ghost predicate HoldsNewLog<U>(sql: Sql<U>, db: Db<U>) {
    && Stores(db, Log(None, []))
    && LogTable.GetLogState(db) == Ok(LogState(None, None))
    && (forall range :: LogRange.TryGetLogEntries(db, range) == Ok([]))
    && (forall entries :: RunFrom(0, entries) && AllStorable(entries) ==>
          var out := RunProgram(sql, AppendProgram(entries), db);
          out.ok && Stores(out.db, Log(None, entries)))
  }

  lemma NewLog<U>(sql: Sql<U>, db: Db<U>)
    requires db.log == Some(map[]) && LastPurgedIdKey !in db.kv
    ensures HoldsNewLog(sql, db)
  {
    assert Stores(db, Log(None, []));
    forall range ensures LogRange.TryGetLogEntries(db, range) == Ok([]) {
      assert SelectedKeys(db.log.value, range) == {};
    }
    hide Stores;
    forall entries | RunFrom(0, entries) && AllStorable(entries)
      ensures var out := RunProgram(sql, AppendProgram(entries), db);
        out.ok && Stores(out.db, Log(None, entries))
    {
      AppendLength(entries);
      AppendMany(sql, db, Log(None, []), entries, |entries|);
      AllStored(entries);
    }
  }

  lemma AllStored(entries: seq<Entry>)
    requires AllStorable(entries)
    ensures StorablePrefix(entries) == |entries|
    ensures Abstract(Append(entries, |entries|), Log(None, [])) == Log(None, entries)
  {
    assert entries[..|entries|] == entries;
  }

  // The files are those of a store that died in state `before`.
  ghost predicate Finds<U>(
    env: Replica.Env<U>, before: Replica.Replica<U>, log: Db<U>, data: Db<U>, file: Option<seq<Byte>>)
  {
    var left := Replica.Found(env, before).db;
    && log.log.Some? && log == Replica.WithData(before.store, left).logDb
    && data == left && file == before.file
  }

  // Opening: the log table is created, the state machine loads its markers from whatever the data
  // handle holds. Without a data path the log handle serves both.
  method Open<U(!new)>(
    log: StorageHandle<U>, separate: Option<StorageHandle<U>>, codec: Replica.Codec<U>,
    leaderText: LeaderId -> string, snapshotFile: Option<seq<Byte>>)
    returns (r: Result<RaftStore<U>>)
    modifies log
    ensures log.db == WithLogTable(old(log.db))
    ensures log.db.log.Some? && log.db.kv == old(log.db).kv && log.db.user == old(log.db).user
    ensures old(log.db).log.Some? ==> log.db.log == old(log.db).log
    ensures old(log.db).log.None? && LastPurgedIdKey !in old(log.db).kv ==> HoldsNewLog(log.sql, log.db)
    ensures var data := if separate.Some? then separate.value else log;
      var kv := data.db.kv;
      && (r.Ok? <==> (LastLogKey in kv ==> kv[LastLogKey].LogIdBlob?)
                     && (LastMembershipKey in kv ==> kv[LastMembershipKey].MembershipBlob?))
      && (r.Ok? ==>
            && r.value.stateMachine.lastAppliedLog
               == (if LastLogKey in kv then Some(kv[LastLogKey].logId) else None)
            && if LastMembershipKey in kv then r.value.stateMachine.lastMembership == kv[LastMembershipKey].membership
               else NoMembership(r.value.stateMachine.lastMembership))
    ensures var data := if separate.Some? then separate.value else log;
      && (r.Ok? <==> Load(data.db).Ok?)
      && (r.Ok? ==>
            && fresh(r.value) && fresh(r.value.stateMachine)
            && r.value.log == log && r.value.stateMachine.data == data
            && r.value.stateMachine.Value() == Load(data.db).value
            && r.value.snapshotFile == snapshotFile)
    ensures forall env: Replica.Env<U>, inMemory: bool ::
      r.Ok? && snapshotFile.None? && old(log.db) == Replica.EmptyDb(env.empty)
      && (separate.Some? ==> separate.value != log && separate.value.db == Replica.EmptyDb(env.empty)) ==>
        r.value.State() == StateOf(Replica.Fresh(env, separate.None?, inMemory))
    ensures forall env: Replica.Env<U>, before: Replica.Replica<U> ::
      Finds(env, before, old(log.db), if separate.Some? then separate.value.db else old(log.db), snapshotFile)
      && before.store.shared == separate.None? && (separate.Some? ==> separate.value != log) ==>
        r.Ok? == Load(Replica.Found(env, before).db).Ok?
        && (r.Ok? ==> r.value.State() == StateOf(Replica.CrashStep(env, before)))
  {
    log.CreateLogTable();
    if old(log.db).log.None? && LastPurgedIdKey !in old(log.db).kv { NewLog(log.sql, log.db); }
    var data := if separate.Some? then separate.value else log;
    var sm := Load(data.db);
    if sm.Err? {
      return Err;
    }
    var machine := new StateMachine(data, sm.value.applied, sm.value.membership);
    var store := new RaftStore(log, machine, codec, leaderText, snapshotFile);
    return Ok(store);
  }

  // A build alone, spelled out: take an index, write the metadata row, serialize, write the file.
  lemma SoloBuildIs<U>(env: Replica.Env<U>, r: Replica.Replica<U>)
    requires r.builder.Idle?
    ensures var (db, index) := TakeIndex(r.store.logDb);
      var alone := Replica.SoloBuild(env, r);
      if index.Err? then alone == r.(store := r.store.(logDb := db))
      else
        var meta := SnapshotMeta(r.applied, r.membership, SnapshotId(env.leaderText, r.applied, index.value));
        var s := r.store.(logDb := db);
        var data := Replica.WithMeta(Replica.Data(s), meta);
        var bytes := env.codec.serialize(data);
        && alone.store == Replica.WithData(s, data)
        && alone.applied == r.applied && alone.membership == r.membership
        && alone.file == Some(Replica.Overwrite(r.file, bytes))
        && alone.published == Some(Replica.Published(meta, bytes))
  {
    hide SnapshotId, Replica.Overwrite, Replica.Data, Replica.WithData, Replica.WithMeta;
    CountAlone(env, r);
    var counted := Replica.BuildStep(env, Replica.BuildStep(env, Replica.BuildStep(env, r)));
    var titled := if counted.builder.NoCounter? then Replica.BuildStep(env, counted) else counted;
    hide Replica.BuildStep, TakeIndex;
    if titled.builder.Titled? { PublishAlone(env, titled); }
  }

  lemma CountAlone<U>(env: Replica.Env<U>, r: Replica.Replica<U>)
    requires r.builder.Idle?
    ensures var (db, index) := TakeIndex(r.store.logDb);
      var counted := Replica.BuildStep(env, Replica.BuildStep(env, Replica.BuildStep(env, r)));
      (if counted.builder.NoCounter? then Replica.BuildStep(env, counted) else counted)
        == r.(store := r.store.(logDb := db),
              builder := if index.Err? then Replica.Idle
                         else Replica.Titled(SnapshotMeta(r.applied, r.membership,
                                SnapshotId(env.leaderText, r.applied, index.value)),
                                Replica.Seen(r.next, r.lost, r.since)))
  {
    hide SnapshotId, Replica.Data, Replica.WithData, Replica.Overwrite, Replica.Settled;
    var db := r.store.logDb;
    var read := Replica.BuildStep(env, Replica.BuildStep(env, r));
    assert read
        == r.(builder := Replica.SawMarkers(r.applied, r.membership, Replica.Seen(r.next, r.lost, r.since)));
    InsertAlone(env.sql, db);
    hide Exec, Bumped, BumpedValue;
  }

  // The two statements that take an index.
  lemma InsertAlone<U>(sql: Sql<U>, db: Db<U>)
    ensures BumpedValue(db) == Ok(None) ==> Exec(sql, InsertCounter, Bumped(db)) == Some(TakeIndex(db).0)
  {
  }

  lemma PublishAlone<U>(env: Replica.Env<U>, r: Replica.Replica<U>)
    requires r.builder.Titled?
    ensures var alone := Replica.BuildStep(env, Replica.BuildStep(env, Replica.BuildStep(env, r)));
      var meta := r.builder.meta;
      var data := Replica.WithMeta(Replica.Data(r.store), meta);
      var bytes := env.codec.serialize(data);
      && alone.store == Replica.WithData(r.store, data)
      && alone.applied == r.applied && alone.membership == r.membership
      && alone.file == Some(Replica.Overwrite(r.file, bytes))
      && alone.published == Some(Replica.Published(meta, bytes))
  {
    hide Replica.Overwrite, Replica.WithMeta;
    var meta := r.builder.meta;
    var data := Replica.WithMeta(Replica.Data(r.store), meta);
    var described := Replica.BuildStep(env, r);
    assert described
        == r.(store := Replica.WithData(r.store, data), builder := Replica.Described(meta, r.builder.seen, true));
    assert Replica.Data(described.store) == data;
    hide Replica.Data, Replica.WithData, Replica.Settled;
    var captured := Replica.BuildStep(env, described);
    assert captured == described.(builder :=
        Replica.Captured(meta, r.builder.seen, data, Replica.Settled(described), r.lost, true, true));
  }

  lemma RunSingle<U>(sql: Sql<U>, a: Action, sm: Sm<U>)
    ensures RunActions(sql, [a], sm)
      == if Do(sql, a, sm).Some? then Run(Do(sql, a, sm).value, true) else Run(sm, false)
  {
    hide Do;
    var one := [a];
    assert one[0] == a && one[1..] == [];
    if Do(sql, a, sm).Some? {
      assert RunActions(sql, one, sm) == RunActions(sql, one[1..], Do(sql, a, sm).value);
    }
  }
}
