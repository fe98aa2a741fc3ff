// The tasks that a storage handle runs, and what concurrent callers see of them.
module StorageTasks {
  import opened RaftTypes
  import opened Sqlite
  import opened LogTable
  import opened LogRange
  import Actor
  import Replica
  import Statements

  // What the closure of `execute` does on the worker's thread.
  function ExecuteTask<U>(sql: Sql<U>, stmt: Stmt, db: Db<U>): (Db<U>, bool) {
    match Exec(sql, stmt, db)
    case None => (db, false)
    case Some(db') => (db', true)
  }

  // What the store asks of a storage handle, one closure each.
  datatype Task =
    | Execute(stmt: Stmt)
    | Bump
    | FetchValue(key: Key)
    | FetchLast
    | FetchRange(range: Range)
    | Serialize
    | LoadImage(bytes: seq<Byte>)

  datatype Answer =
    | Done(ok: bool)
    | Counted(count: Result<Option<I64>>)
    | Fetched(value: Option<Value>)
    | Last(id: Result<Option<LogId>>)
    | Rows(entries: Result<seq<Entry>>)
    | Image(bytes: seq<Byte>)

  function Perform<U>(sql: Sql<U>, codec: Replica.Codec<U>, task: Task, db: Db<U>): (Db<U>, Answer) {
    match task
    case Execute(stmt) => (ExecuteTask(sql, stmt, db).0, Done(ExecuteTask(sql, stmt, db).1))
    case Bump => (Bumped(db), Counted(BumpedValue(db)))
    case FetchValue(key) => (db, Fetched(if key in db.kv then Some(db.kv[key]) else None))
    case FetchLast => (db, Last(LastLogEntry(db)))
    case FetchRange(range) => (db, Rows(TryGetLogEntries(db, range)))
    case Serialize => (db, Image(codec.serialize(db)))
    case LoadImage(bytes) =>
      match codec.deserialize(bytes)
      case None => (db, Done(false))
      case Some(image) => (image, Done(true))
  }

  // One handle: its SQL, its image format and what each caller asks.
  datatype Handle<!U> = Handle(sql: Sql<U>, codec: Replica.Codec<U>, what: nat -> Task)

  function TasksOf<U>(h: Handle<U>): Actor.Tasks<Db<U>, Answer> {
    (id: nat) => (d: Db<U>) => Perform(h.sql, h.codec, h.what(id), d)
  }

  // The database after the first `i` of these tasks, one after the other.
  function DbAt<U>(h: Handle<U>, ids: seq<nat>, db: Db<U>, i: nat): Db<U>
    requires i <= |ids|
  {
    if i == 0 then db else Perform(h.sql, h.codec, h.what(ids[i - 1]), DbAt(h, ids, db, i - 1)).0
  }

  lemma {:induction false} DbAtRest<U>(h: Handle<U>, ids: seq<nat>, db: Db<U>, i: nat)
    requires i < |ids|
    ensures DbAt(h, ids, db, i + 1) == DbAt(h, ids[1..], Perform(h.sql, h.codec, h.what(ids[0]), db).0, i)
  {
    hide Perform;
    if i > 0 { DbAtRest(h, ids, db, i - 1); }
  }

  lemma {:induction false} SequentialAt<U>(
    h: Handle<U>, ids: seq<nat>, db: Db<U>, results: seq<Answer>, after: Db<U>, i: nat)
    requires Actor.Sequential(TasksOf(h), ids, db, results, after) && i <= |ids|
    ensures |results| == |ids| && after == DbAt(h, ids, db, |ids|)
    ensures i < |ids| ==> results[i] == Perform(h.sql, h.codec, h.what(ids[i]), DbAt(h, ids, db, i)).1
    decreases |ids|
  {
    hide Perform;
    if ids != [] {
      var db' := Perform(h.sql, h.codec, h.what(ids[0]), db).0;
      SequentialAt(h, ids[1..], db', results[1..], after, if i > 0 then i - 1 else 0);
      DbAtRest(h, ids, db, |ids| - 1);
      if 0 < i < |ids| { DbAtRest(h, ids, db, i - 1); }
    }
  }

  // The state of the actor after any run.
  function RunOfHandle<U>(h: Handle<U>, steps: seq<Actor.Step>, db: Db<U>): Actor.State<Db<U>, Answer> {
    Actor.RunSteps(TasksOf(h), steps, Actor.Initial(db))
  }

  // A storage handle is an atomic database: whatever callers do concurrently, statements, fetches,
  // counter updates, serializations and loads alike, the connection and every answer are those of
  // performing the tasks one at a time in queue order.
  lemma HandleIsAtomic<U>(h: Handle<U>, steps: seq<Actor.Step>, db: Db<U>)
    ensures var s := RunOfHandle(h, steps, db);
      && s.conn == DbAt(h, s.executed, db, |s.executed|) && |s.results| == |s.executed|
      && (forall i :: 0 <= i < |s.executed| ==>
            s.results[i] == Perform(h.sql, h.codec, h.what(s.executed[i]), DbAt(h, s.executed, db, i)).1)
      && (forall i :: 0 <= i < |s.executed| && s.executed[i] in s.answers ==>
            s.answers[s.executed[i]] == s.results[i])
      && (forall id :: id in s.answers ==> id in s.executed)
      && Actor.RealTimeOrder(s, Actor.Order(s)) && s.executed <= Actor.Order(s)
  {
    var s := RunOfHandle(h, steps, db);
    assert s == Actor.RunSteps(TasksOf(h), steps, Actor.Initial(db));
    hide *;
    Actor.Linearizable(TasksOf(h), steps, db);
    Actor.OwnAnswers(TasksOf(h), steps, db);
    SequentialAt(h, s.executed, db, s.results, s.conn, 0);
    forall i | 0 <= i < |s.executed|
      ensures s.results[i] == Perform(h.sql, h.codec, h.what(s.executed[i]), DbAt(h, s.executed, db, i)).1
    {
      SequentialAt(h, s.executed, db, s.results, s.conn, i);
    }
  }

  // One task of such a run, and what it leaves.
  lemma TaskAt<U>(h: Handle<U>, steps: seq<Actor.Step>, db: Db<U>, i: nat)
    requires i < |RunOfHandle(h, steps, db).executed|
    ensures var s := RunOfHandle(h, steps, db);
      var done := Perform(h.sql, h.codec, h.what(s.executed[i]), DbAt(h, s.executed, db, i));
      && |s.results| == |s.executed|
      && s.results[i] == done.1 && DbAt(h, s.executed, db, i + 1) == done.0
  {
    hide RunOfHandle, Perform;
    HandleIsAtomic(h, steps, db);
  }

  // ---- What the answers mean ----

  // Tasks that can change what is stored under a key; an image that does not load changes nothing.
  predicate Touches<U>(codec: Replica.Codec<U>, task: Task, key: Key) {
    match task
    case Execute(Upsert(k, _)) => k == key
    case Execute(BumpCounter) => key == SnapshotIndexKey
    case Execute(InsertCounter) => key == SnapshotIndexKey
    case Bump => key == SnapshotIndexKey
    case LoadImage(bytes) => codec.deserialize(bytes).Some?
    case _ => false
  }

  lemma UntouchedKey<U>(h: Handle<U>, task: Task, key: Key, db: Db<U>)
    requires !Touches(h.codec, task, key)
    ensures var db' := Perform(h.sql, h.codec, task, db).0;
      (key in db'.kv <==> key in db.kv) && (key in db.kv ==> db'.kv[key] == db.kv[key])
  {
  }

  lemma {:induction false} UntouchedAlong<U>(h: Handle<U>, ids: seq<nat>, db: Db<U>, j: nat, i: nat, key: Key)
    requires j <= i <= |ids| && forall k :: j <= k < i ==> !Touches(h.codec, h.what(ids[k]), key)
    ensures var a, b := DbAt(h, ids, db, j), DbAt(h, ids, db, i);
      (key in b.kv <==> key in a.kv) && (key in a.kv ==> b.kv[key] == a.kv[key])
    decreases i
  {
    if j < i {
      UntouchedAlong(h, ids, db, j, i - 1, key);
      UntouchedKey(h, h.what(ids[i - 1]), key, DbAt(h, ids, db, i - 1));
    }
  }

  // A fetch answers with the value that was stored last, by the task at position `j` of the queue
  // order, however many other tasks ran in between and whoever submitted them.
  lemma FetchReadsLastWrite<U>(
    h: Handle<U>, steps: seq<Actor.Step>, db: Db<U>, j: nat, i: nat, key: Key, value: Value)
    requires var ids := RunOfHandle(h, steps, db).executed;
      && j < i < |ids| && h.what(ids[j]) == Execute(Upsert(key, value)) && h.what(ids[i]) == FetchValue(key)
      && forall k :: j < k < i ==> !Touches(h.codec, h.what(ids[k]), key)
    ensures var s := RunOfHandle(h, steps, db);
      |s.results| == |s.executed| && s.results[j] == Done(true) && s.results[i] == Fetched(Some(value))
  {
    var s := RunOfHandle(h, steps, db);
    hide RunOfHandle, DbAt, Touches, Exec;
    TaskAt(h, steps, db, j);
    TaskAt(h, steps, db, i);
    UntouchedAlong(h, s.executed, db, j + 1, i, key);
    Statements.KeyStatements(h.sql, key, value, DbAt(h, s.executed, db, j));
  }

  // Without such a task before it, a fetch answers with what the database began with.
  lemma FetchReadsFirst<U>(h: Handle<U>, steps: seq<Actor.Step>, db: Db<U>, i: nat, key: Key)
    requires var ids := RunOfHandle(h, steps, db).executed;
      && i < |ids| && h.what(ids[i]) == FetchValue(key)
      && forall k :: 0 <= k < i ==> !Touches(h.codec, h.what(ids[k]), key)
    ensures var s := RunOfHandle(h, steps, db);
      |s.results| == |s.executed| && s.results[i] == Fetched(if key in db.kv then Some(db.kv[key]) else None)
  {
    var s := RunOfHandle(h, steps, db);
    assert DbAt(h, s.executed, db, 0) == db;
    hide RunOfHandle, DbAt, Touches;
    TaskAt(h, steps, db, i);
    UntouchedAlong(h, s.executed, db, 0, i, key);
  }

  // Two counter updates with nothing else at the counter between them give consecutive numbers.
  lemma BumpsCount<U>(h: Handle<U>, steps: seq<Actor.Step>, db: Db<U>, j: nat, i: nat, n: I64)
    requires var s := RunOfHandle(h, steps, db);
      && j < i < |s.executed| && |s.results| == |s.executed|
      && h.what(s.executed[j]) == Bump && s.results[j] == Counted(Ok(Some(n))) && n < I64_MAX
      && h.what(s.executed[i]) == Bump
      && forall k :: j < k < i ==> !Touches(h.codec, h.what(s.executed[k]), SnapshotIndexKey)
    ensures RunOfHandle(h, steps, db).results[i] == Counted(Ok(Some(n + 1)))
  {
    var s := RunOfHandle(h, steps, db);
    hide RunOfHandle, DbAt, Touches;
    TaskAt(h, steps, db, j);
    TaskAt(h, steps, db, i);
    UntouchedAlong(h, s.executed, db, j + 1, i, SnapshotIndexKey);
  }

  // A range fetch over a stored log answers with the entries that the range contains, and the last-row
  // fetch with the last id.
  lemma FetchesReadLog<U>(h: Handle<U>, steps: seq<Actor.Step>, db: Db<U>, i: nat, l: Log)
    requires i < |RunOfHandle(h, steps, db).executed|
    requires Stores(DbAt(h, RunOfHandle(h, steps, db).executed, db, i), l)
    ensures var s := RunOfHandle(h, steps, db);
      var before := DbAt(h, s.executed, db, i);
      && |s.results| == |s.executed|
      && (h.what(s.executed[i]).FetchRange? && BoundsFit(h.what(s.executed[i]).range) ==>
            (s.results[i] == Rows(Ok(Filter(l.entries, h.what(s.executed[i]).range)))
             <==> NoneBefore(before.log.value, Base(l), h.what(s.executed[i]).range)))
      && (h.what(s.executed[i]).FetchLast? && l.entries != [] ==> s.results[i] == Last(Ok(LastId(l))))
  {
    var s := RunOfHandle(h, steps, db);
    hide RunOfHandle, DbAt, Stores, LastLogEntry, TryGetLogEntries, Filter, LastId;
    TaskAt(h, steps, db, i);
    LogReads(h, h.what(s.executed[i]), DbAt(h, s.executed, db, i), l);
  }

  lemma LogReads<U>(h: Handle<U>, task: Task, db: Db<U>, l: Log)
    requires Stores(db, l)
    ensures task.FetchRange? && BoundsFit(task.range) ==>
      (Perform(h.sql, h.codec, task, db).1 == Rows(Ok(Filter(l.entries, task.range)))
       <==> NoneBefore(db.log.value, Base(l), task.range))
    ensures task.FetchLast? && l.entries != [] ==> Perform(h.sql, h.codec, task, db).1 == Last(Ok(LastId(l)))
  {
    if task.FetchRange? && BoundsFit(task.range) {
      hide Stores, TryGetLogEntries, Filter, NoneBefore, BoundsFit;
      RangeReadFilters(db, l, task.range);
    }
    if task.FetchLast? {
      LastLogEntryIs(db);
      GreatestRow(db.log.value, Base(l), l.entries);
      hide RowsHold, Consistent, LastLogEntry;
    }
  }

  // An append statement over or right after the entries of a stored log takes its place in it.
  lemma AppendsToLog<U>(h: Handle<U>, steps: seq<Actor.Step>, db: Db<U>, i: nat, l: Log, e: Entry)
    requires var ids := RunOfHandle(h, steps, db).executed;
      i < |ids| && h.what(ids[i]) == Execute(RowStmt(e)) && Stores(DbAt(h, ids, db, i), l)
    requires Base(l) <= e.logId.index <= Base(l) + |l.entries|
    ensures var s := RunOfHandle(h, steps, db);
      && |s.results| == |s.executed|
      && (if Storable(e) then
            && s.results[i] == Done(true)
            && Stores(DbAt(h, s.executed, db, i + 1), l.(entries := Splice(l.entries, e.logId.index - Base(l), [e])))
          else s.results[i] == Done(false) && DbAt(h, s.executed, db, i + 1) == DbAt(h, s.executed, db, i))
  {
    var s := RunOfHandle(h, steps, db);
    hide RunOfHandle, DbAt, Stores, Exec, Splice, RowStmt;
    TaskAt(h, steps, db, i);
    AppendOne(h.sql, DbAt(h, s.executed, db, i), l, e);
  }

  // Loading what a serialization answered puts the database back as it was then.
  lemma LoadsRestore<U(!new)>(h: Handle<U>, steps: seq<Actor.Step>, db: Db<U>, j: nat, i: nat)
    requires Replica.Lawful(h.codec)
    requires var s := RunOfHandle(h, steps, db);
      && j < i < |s.executed| && |s.results| == |s.executed| && h.what(s.executed[j]) == Serialize
      && s.results[j].Image? && h.what(s.executed[i]) == LoadImage(s.results[j].bytes)
    ensures var s := RunOfHandle(h, steps, db);
      && s.results[i] == Done(true)
      && DbAt(h, s.executed, db, i + 1) == DbAt(h, s.executed, db, j)
  {
    hide RunOfHandle, DbAt;
    TaskAt(h, steps, db, j);
    TaskAt(h, steps, db, i);
  }
}
