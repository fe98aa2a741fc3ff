// The log, its purge marker and the vote, on a handle of their own or on the one that also holds
// the data, over runs with installs and crashes.
module ReplicaHandles {
  import opened RaftTypes
  import opened Sqlite
  import opened StateMachine
  import opened Replica
  import opened ReplicaInvariant
  import opened ReplicaTheorems
  import opened ReplicaLoss

  // What the Raft core keeps in the log handle besides the snapshot counter.
  datatype Durable = Durable(log: Option<map<I64, Row>>, purged: Result<Option<LogId>>, vote: Result<Option<Vote>>)

  function DurableOf<U>(db: Db<U>): Durable {
    Durable(db.log, FetchLogId(LastPurgedIdKey, db), FetchVote(db))
  }

  // The statements of log and vote alone: nothing applies, builds, installs or dies.
  function LogStep<U>(sql: Sql<U>, step: Step<U>, db: Db<U>): Db<U> {
    match step
    case WriteLog(stmt) => if IsLogWrite(stmt) && Exec(sql, stmt, db).Some? then Exec(sql, stmt, db).value else db
    case SaveVote(v) => db.(kv := db.kv[VoteKey := VoteBlob(v)])
    case _ => db
  }

  function LogAlone<U>(sql: Sql<U>, steps: seq<Step<U>>, db: Db<U>): Db<U> {
    if steps == [] then db else LogAlone(sql, steps[1..], LogStep(sql, steps[0], db))
  }

  lemma LogStepDurable<U>(sql: Sql<U>, step: Step<U>, a: Db<U>, b: Db<U>)
    requires DurableOf(a) == DurableOf(b)
    ensures DurableOf(LogStep(sql, step, a)) == DurableOf(LogStep(sql, step, b))
  {
  }

  lemma {:induction false} LogAloneDurable<U>(sql: Sql<U>, steps: seq<Step<U>>, a: Db<U>, b: Db<U>)
    requires DurableOf(a) == DurableOf(b)
    ensures DurableOf(LogAlone(sql, steps, a)) == DurableOf(LogAlone(sql, steps, b))
    decreases |steps|
  {
    hide DurableOf, LogStep;
    if steps != [] {
      LogStepDurable(sql, steps[0], a, b);
      LogAloneDurable(sql, steps[1..], LogStep(sql, steps[0], a), LogStep(sql, steps[0], b));
    }
  }

  // ---- No step but a log or vote statement touches them ----

  lemma ActionDurable<U>(sql: Sql<U>, e: Entry, i: nat, sm: Sm<U>)
    requires i < |EntryActions(e)|
    ensures Do(sql, EntryActions(e)[i], sm).Some? ==>
      DurableOf(Do(sql, EntryActions(e)[i], sm).value.db) == DurableOf(sm.db)
  {
  }

  lemma WithDataDurable<U>(s: Store<U>, db: Db<U>)
    ensures DurableOf(db) == DurableOf(Data(s)) || !s.shared ==> DurableOf(WithData(s, db).logDb) == DurableOf(s.logDb)
  {
  }

  lemma ApplyDurable<U>(env: Env<U>, r: Replica<U>)
    ensures DurableOf(ApplyStep(env, r).store.logDb) == DurableOf(r.store.logDb)
  {
    if r.next < |env.log| && r.done < |EntryActions(env.log[r.next])| {
      ActionDurable(env.sql, env.log[r.next], r.done, Memory(r));
    }
    if ApplyStep(env, r).store != r.store {
      WithDataDurable(r.store, Do(env.sql, EntryActions(env.log[r.next])[r.done], Memory(r)).value.db);
    }
    hide DurableOf, Do, EntryActions, Data, WithData;
  }

  lemma CounterDurable<U>(sql: Sql<U>, db: Db<U>)
    ensures DurableOf(Bumped(db)) == DurableOf(db)
    ensures Exec(sql, InsertCounter, db).Some? ==> DurableOf(Exec(sql, InsertCounter, db).value) == DurableOf(db)
  {
  }

  lemma MetaDurable<U>(s: Store<U>, meta: SnapshotMeta)
    ensures DurableOf(WithData(s, WithMeta(Data(s), meta)).logDb) == DurableOf(s.logDb)
  {
  }

  lemma BuildDurable<U>(env: Env<U>, r: Replica<U>)
    ensures DurableOf(BuildStep(env, r).store.logDb) == DurableOf(r.store.logDb)
  {
    BuildStore(env, r);
    CounterDurable(env.sql, r.store.logDb);
    if r.builder.Titled? { MetaDurable(r.store, r.builder.meta); }
    hide BuildStep, DurableOf, Exec, Bumped, Data, WithData, WithMeta;
  }

  lemma RecordDurable<U>(r: Replica<U>)
    ensures DurableOf(RecordStep(r).store.logDb) == DurableOf(r.store.logDb)
  {
    if r.installing.Some? { MetaDurable(r.store, r.installing.value); }
    hide DurableOf, Data, WithData, WithMeta, Unmine;
  }

  lemma CrashDurable<U>(env: Env<U>, r: Replica<U>)
    requires !r.store.shared || r.onDisk.None?
    ensures DurableOf(CrashStep(env, r).store.logDb) == DurableOf(r.store.logDb)
  {
    WithDataDurable(r.store, Found(env, r).db);
    hide DurableOf, Load, WithData, EmptyDb, InGap, Marked;
  }

  lemma ReceiveDurable<U>(env: Env<U>, meta: SnapshotMeta, image: Db<U>, r: Replica<U>)
    requires !r.store.shared
    ensures DurableOf(ReceiveStep(env, meta, image, r).store.logDb) == DurableOf(r.store.logDb)
  {
    WithDataDurable(r.store, image);
    hide DurableOf, CanReceive, WithData, LosesData, SqlBelow, Unmine;
  }

  // On a handle of its own nothing else does; on a shared one an install does, and a crash after it.
  lemma StepDurable<U>(env: Env<U>, step: Step<U>, r: Replica<U>)
    requires r.store.shared ==> !step.Receive? && (step.Crash? ==> r.onDisk.None?)
    ensures DurableOf(Next(env, step, r).store.logDb) == DurableOf(LogStep(env.sql, step, r.store.logDb))
  {
    hide DurableOf, ApplyStep, BuildStep, RecordStep, CrashStep, ReceiveStep, Exec;
    match step
    case Apply => ApplyDurable(env, r);
    case Build => BuildDurable(env, r);
    case WriteLog(_) =>
    case SaveVote(_) =>
    case Receive(meta, image) => ReceiveDurable(env, meta, image, r);
    case Record => RecordDurable(r);
    case Crash => CrashDurable(env, r);
  }

  lemma {:induction false} RunDurable<U>(env: Env<U>, steps: seq<Step<U>>, r: Replica<U>)
    requires r.store.shared ==> NoInstall(steps) && (r.onDisk.None? || Crash !in steps)
    ensures DurableOf(RunSteps(env, steps, r).store.logDb) == DurableOf(LogAlone(env.sql, steps, r.store.logDb))
    decreases |steps|
  {
    if steps != [] {
      assert steps[0] in steps;
      var r' := Next(env, steps[0], r);
      StepDurable(env, steps[0], r);
      HandlesStay(env, steps[0], r);
      if steps[0].Crash? { CrashLeavesDisk(env, r); } else { OnlyCrashLoses(env, steps[0], r); }
      hide DurableOf, Next, LogStep;
      RunDurable(env, steps[1..], r');
      LogAloneDurable(env.sql, steps[1..], r'.store.logDb, LogStep(env.sql, steps[0], r.store.logDb));
    }
  }

  lemma CrashLeavesDisk<U>(env: Env<U>, r: Replica<U>)
    ensures Next(env, Crash, r).onDisk == None || Next(env, Crash, r).onDisk == r.onDisk
  {
    hide Load, Found, WithData, LosesData;
  }

  // ---- The theorems ----

  // On separate handles over every run, and on a shared one over every run without installs: the
  // rows, the purge marker and the vote are what the log and vote statements alone would leave.
  // No apply, build, install or crash adds, changes or loses any of them.
  lemma LogAndVoteKept<U>(env: Env<U>, steps: seq<Step<U>>, shared: bool, inMemory: bool)
    requires shared ==> NoInstall(steps)
    ensures DurableOf(RunOf(env, steps, shared, inMemory).store.logDb)
      == DurableOf(LogAlone(env.sql, steps, WithLogTable(EmptyDb(env.empty))))
  {
    RunDurable(env, steps, Fresh(env, shared, inMemory));
  }

  function LastSaved<U>(steps: seq<Step<U>>, before: Option<Vote>): Option<Vote> {
    if steps == [] then before
    else LastSaved(steps[1..], if steps[0].SaveVote? then Some(steps[0].vote) else before)
  }

  lemma {:induction false} VoteAlone<U>(sql: Sql<U>, steps: seq<Step<U>>, db: Db<U>)
    requires FetchVote(db).Ok?
    ensures FetchVote(LogAlone(sql, steps, db)) == Ok(LastSaved(steps, FetchVote(db).value))
    decreases |steps|
  {
    if steps != [] { VoteAlone(sql, steps[1..], LogStep(sql, steps[0], db)); }
  }

  // So the stored vote is the last one saved.
  lemma VoteKept<U>(env: Env<U>, steps: seq<Step<U>>, shared: bool, inMemory: bool)
    requires shared ==> NoInstall(steps)
    ensures FetchVote(RunOf(env, steps, shared, inMemory).store.logDb) == Ok(LastSaved(steps, None))
  {
    LogAndVoteKept(env, steps, shared, inMemory);
    VoteAlone(env.sql, steps, WithLogTable(EmptyDb(env.empty)));
    hide RunOf, LogAlone;
  }

  // On a shared handle an install replaces them by the sender's, and later statements go on from
  // there.
  lemma SharedInstallReplaces<U>(
    env: Env<U>, r: Replica<U>, meta: SnapshotMeta, image: Db<U>, steps: seq<Step<U>>)
    requires r.store.shared && CanReceive(env, r, meta, image)
    requires NoInstall(steps) && Crash !in steps
    ensures DurableOf(RunSteps(env, [Receive(meta, image)] + steps, r).store.logDb)
      == DurableOf(LogAlone(env.sql, steps, image))
  {
    var r1 := ReceiveStep(env, meta, image, r);
    assert r1.store.shared && r1.store.logDb == image by { hide CanReceive, SqlBelow; }
    hide *;
    FirstStep(env, Receive(meta, image), steps, r);
    RunDurable(env, steps, r1);
  }

  lemma {:induction false} DiskKept<U>(env: Env<U>, steps: seq<Step<U>>, r: Replica<U>)
    requires NoInstall(steps) && Crash !in steps
    ensures var r' := RunSteps(env, steps, r);
      r'.onDisk == r.onDisk && SameHandles(r, r')
    decreases |steps|
  {
    if steps != [] {
      assert steps[0] in steps;
      HandlesStay(env, steps[0], r);
      OnlyCrashLoses(env, steps[0], r);
      hide Next;
      DiskKept(env, steps[1..], Next(env, steps[0], r));
    }
  }

  lemma ReceivedDisk<U>(env: Env<U>, r: Replica<U>, meta: SnapshotMeta, image: Db<U>)
    requires CanReceive(env, r, meta, image) && r.onDisk.None? && !LosesData(r.store)
    ensures var r' := ReceiveStep(env, meta, image, r);
      r'.onDisk == Some(Saved(Data(r.store), r.next, r.lost, r.ran)) && SameHandles(r, r')
  {
    hide CanReceive, SqlBelow, Unmine;
  }

  lemma CrashRestores<U>(env: Env<U>, r: Replica<U>)
    requires ValidEnv(env) && Inv(env, r) && r.onDisk.Some? && !LosesData(r.store)
    ensures var r' := CrashStep(env, r);
      && Data(r'.store) == r.onDisk.value.db && r'.next == r.onDisk.value.next && r'.lost == r.onDisk.value.lost
      && SameHandles(r, r')
  {
    FoundAtRest(env, r);
    StoreData(r.store, r.onDisk.value.db);
    assert NextIndex(IdAt(env, r.onDisk.value.next)) == r.onDisk.value.next;
    hide Inv, LosesData, Data, WithData, HistoryOf, FetchMeta, ReplayWithout, IdAt;
  }

  // Until a reopen, because the image was loaded into memory only: a crash at any later point
  // finds the data as it was before the install, whatever was applied since; and on a shared
  // handle log, marker and vote too, whatever was appended or voted since.
  lemma InstallUndoneByCrash<U>(
    env: Env<U>, r: Replica<U>, meta: SnapshotMeta, image: Db<U>, steps: seq<Step<U>>)
    requires ValidEnv(env) && Inv(env, r) && CanReceive(env, r, meta, image)
    requires r.onDisk.None? && !LosesData(r.store)
    requires NoInstall(steps) && Crash !in steps
    ensures var r' := CrashStep(env, RunSteps(env, [Receive(meta, image)] + steps, r));
      && Data(r'.store) == Data(r.store) && r'.next == r.next && r'.lost == r.lost
      && (r.store.shared ==> r'.store.logDb == r.store.logDb)
      && (!r.store.shared ==> DurableOf(r'.store.logDb) == DurableOf(LogAlone(env.sql, steps, r.store.logDb)))
  {
    var r1 := ReceiveStep(env, meta, image, r);
    var r2 := RunSteps(env, steps, r1);
    ReceivedDisk(env, r, meta, image);
    ReceiveKeepsInv(env, meta, image, r);
    FirstStep(env, Receive(meta, image), steps, r);
    assert LosesData(r1.store) == LosesData(r.store);
    hide ReceiveStep, CrashStep, RunSteps, CanReceive, Inv, DurableOf, LogAlone;
    DiskKept(env, steps, r1);
    RunKeepsInv(env, steps, r1);
    assert LosesData(r2.store) == LosesData(r.store);
    CrashRestores(env, r2);
    if !r.store.shared {
      LogAfterInstall(env, r, meta, image, steps);
    }
  }

  lemma LogAfterInstall<U>(
    env: Env<U>, r: Replica<U>, meta: SnapshotMeta, image: Db<U>, steps: seq<Step<U>>)
    requires !r.store.shared && NoInstall(steps) && Crash !in steps
    ensures DurableOf(CrashStep(env, RunSteps(env, steps, ReceiveStep(env, meta, image, r))).store.logDb)
      == DurableOf(LogAlone(env.sql, steps, r.store.logDb))
  {
    var r1 := ReceiveStep(env, meta, image, r);
    var r2 := RunSteps(env, steps, r1);
    HandlesStay(env, Receive(meta, image), r);
    FirstStep(env, Receive(meta, image), steps, r);
    ReceiveDurable(env, meta, image, r);
    hide ReceiveStep, CrashStep, RunSteps, DurableOf, LogAlone;
    RunDurable(env, steps, r1);
    DiskKept(env, steps, r1);
    CrashDurable(env, r2);
    LogAloneDurable(env.sql, steps, r1.store.logDb, r.store.logDb);
  }

  // So the entries lost are determined over installs too. From an install on none is missing; a
  // crash brings back those missing from the file, and from there on crashes in a gap add theirs.
  lemma LostAroundInstall<U>(
    env: Env<U>, r: Replica<U>, meta: SnapshotMeta, image: Db<U>, steps: seq<Step<U>>, rest: seq<Step<U>>)
    requires ValidEnv(env) && Inv(env, r) && CanReceive(env, r, meta, image)
    requires r.onDisk.None? && !LosesData(r.store)
    requires NoInstall(steps) && Crash !in steps && NoInstall(rest)
    ensures var a := RunSteps(env, [Receive(meta, image)] + steps, r);
      && a.lost == {}
      && RunSteps(env, rest, CrashStep(env, a)).lost == r.lost + GapCrashes(env, rest, CrashStep(env, a))
  {
    var r1 := ReceiveStep(env, meta, image, r);
    var a := RunSteps(env, steps, r1);
    forall i | 0 <= i < |steps| ensures !steps[i].Crash? && !steps[i].Receive? { assert steps[i] in steps; }
    ReceivedDisk(env, r, meta, image);
    hide *;
    FirstStep(env, Receive(meta, image), steps, r);
    ReceivedSince(env, r, meta, image);
    SinceKept(env, steps, r1);
    InstallUndoneByCrash(env, r, meta, image, steps);
    ReceiveKeepsInv(env, meta, image, r);
    RunKeepsInv(env, steps, r1);
    CrashKeepsInv(env, a);
    DiskKept(env, steps, r1);
    CrashAttaches(env, a);
    SurvivesToo(r, r1);
    SurvivesToo(r1, a);
    SurvivesToo(a, CrashStep(env, a));
    LostAlong(env, rest, CrashStep(env, a));
  }

  lemma SurvivesToo<U>(r: Replica<U>, r': Replica<U>)
    requires SameHandles(r, r')
    ensures LosesData(r'.store) == LosesData(r.store)
  {
  }

  lemma CrashAttaches<U>(env: Env<U>, r: Replica<U>)
    requires ValidEnv(env) && Inv(env, r)
    ensures CrashStep(env, r).onDisk.None? && SameHandles(r, CrashStep(env, r))
  {
    FoundAtRest(env, r);
    StoreData(r.store, Found(env, r).db);
    hide Inv, Found, Load, WithData, SavedInv;
  }
}
