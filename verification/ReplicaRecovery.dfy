// Whether log and data together still hold every entry: what the log was purged of must be in the
// data that a reopen finds.
module ReplicaRecovery {
  import opened RaftTypes
  import opened Sqlite
  import opened StateMachine
  import opened LogTable
  import opened Replica
  import opened ReplicaInvariant
  import opened ReplicaTheorems
  import opened ReplicaLoss
  import opened ReplicaHandles
  import opened SnapshotShipping
  import opened SnapshotResume

  // The log in `db` was purged of no entry from `n` on.
  predicate PurgedBelow<U>(db: Db<U>, n: nat) {
    FetchLogId(LastPurgedIdKey, db).Ok? && NextIndex(FetchLogId(LastPurgedIdKey, db).value) <= n
  }

  predicate Covered<U>(r: Replica<U>) {
    PurgedBelow(r.store.logDb, r.next)
  }

  // The entries of a log that was purged up to some point are the rest of the committed ones.
  ghost predicate IsTail<U>(env: Env<U>, l: Log) {
    && ValidEnv(env)
    && |env.log| == Base(l) + |l.entries|
    && env.log[Base(l)..] == l.entries
  }

  // That is, the log still holds every entry that the data is to apply.
  lemma CoveredMeans<U>(env: Env<U>, r: Replica<U>, l: Log)
    requires Stores(r.store.logDb, l) && IsTail(env, l) && r.next <= |env.log|
    ensures Covered(r) <==> forall i :: r.next <= i < |env.log| ==> env.log[i] in l.entries
  {
    assert FetchLogId(LastPurgedIdKey, r.store.logDb) == Ok(l.purged);
    hide Stores;
    if Covered(r) {
      forall i | r.next <= i < |env.log| ensures env.log[i] in l.entries {
        assert l.entries[i - Base(l)] == env.log[i];
      }
    } else {
      assert r.next < Base(l);
      forall j | 0 <= j < |l.entries| ensures l.entries[j] != env.log[r.next] {
        assert l.entries[j] == env.log[Base(l) + j];
      }
      assert env.log[r.next] !in l.entries;
    }
  }

  // ---- Over runs ----

  predicate IsPurge(stmt: Stmt) {
    stmt.Upsert? && stmt.key == LastPurgedIdKey && stmt.value.LogIdBlob?
  }

  // How many entries a reopen finds in the data at least, while the log stays as it is. On a shared
  // handle the log goes back together with the data.
  function Secure<U>(r: Replica<U>): nat {
    if LosesData(r.store) then 0
    else if !r.store.shared && r.onDisk.Some? then r.onDisk.value.next
    else r.next
  }

  ghost predicate Secures<U>(env: Env<U>, step: Step<U>, r: Replica<U>) {
    && (step.WriteLog? && IsPurge(step.stmt) ==> step.stmt.value.logId.index < Secure(r))
    && (step.Receive? && r.store.shared && CanReceive(env, r, step.meta, step.image) ==>
          PurgedBelow(step.image, NextIndex(step.meta.lastLogId)))
  }

  // Every purge names an entry that a reopen would find in the data, and every image installed over
  // a shared log meets the claim itself.
  ghost predicate PurgesSecured<U>(env: Env<U>, steps: seq<Step<U>>, r: Replica<U>) {
    steps != [] ==> Secures(env, steps[0], r) && PurgesSecured(env, steps[1..], Next(env, steps[0], r))
  }

  ghost predicate SecureInv<U>(r: Replica<U>) {
    && PurgedBelow(r.store.logDb, Secure(r))
    && (r.onDisk.Some? ==>
          && !LosesData(r.store) && r.onDisk.value.next <= r.next
          && (r.store.shared ==> PurgedBelow(r.onDisk.value.db, r.onDisk.value.next)))
  }

  lemma PurgedStep<U>(sql: Sql<U>, step: Step<U>, db: Db<U>)
    ensures FetchLogId(LastPurgedIdKey, LogStep(sql, step, db))
      == if step.WriteLog? && IsPurge(step.stmt) then Ok(Some(step.stmt.value.logId))
         else FetchLogId(LastPurgedIdKey, db)
  {
  }

  lemma PositionGrows<U>(env: Env<U>, step: Step<U>, r: Replica<U>)
    requires !step.Crash? && !step.Receive?
    ensures Next(env, step, r).next >= r.next && Next(env, step, r).onDisk == r.onDisk
  {
    BuildPosition(env, r);
    BuildKeepsHistory(env, r);
    hide BuildStep, Do, EntryActions, Exec, Data, WithData, WithMeta, Unmine;
  }

  lemma QuietSecure<U>(env: Env<U>, step: Step<U>, r: Replica<U>)
    requires SecureInv(r) && Secures(env, step, r) && !step.Crash? && !step.Receive?
    ensures SecureInv(Next(env, step, r))
  {
    PositionGrows(env, step, r);
    StepDurable(env, step, r);
    PurgedStep(env.sql, step, r.store.logDb);
    HandlesStay(env, step, r);
    hide Next, LogStep, FetchLogId, FetchVote;
  }

  lemma ReceiveSecure<U>(env: Env<U>, meta: SnapshotMeta, image: Db<U>, r: Replica<U>)
    requires SecureInv(r) && Secures(env, Receive(meta, image), r) && CanReceive(env, r, meta, image)
    ensures SecureInv(ReceiveStep(env, meta, image, r))
  {
    if !r.store.shared { ReceiveDurable(env, meta, image, r); }
    assert r.next <= NextIndex(meta.lastLogId);
    hide CanReceive, FetchLogId, FetchVote, SqlBelow, Unmine;
  }

  lemma CrashSecure<U>(env: Env<U>, r: Replica<U>)
    requires ValidEnv(env) && Inv(env, r) && SecureInv(r)
    ensures SecureInv(CrashStep(env, r))
  {
    CrashAttaches(env, r);
    if LosesData(r.store) || r.onDisk.None? { CrashDurable(env, r); }
    if !LosesData(r.store) {
      if r.onDisk.None? {
        CrashPosition(env, r);
      } else {
        CrashRestores(env, r);
        if !r.store.shared { CrashDurable(env, r); }
      }
    }
    hide Inv, CrashStep, FetchLogId, FetchVote;
  }

  lemma SecureStep<U>(env: Env<U>, step: Step<U>, r: Replica<U>)
    requires ValidEnv(env) && Inv(env, r) && SecureInv(r) && Secures(env, step, r)
    ensures SecureInv(Next(env, step, r))
  {
    hide Inv, SecureInv, Secures, CanReceive, CrashStep;
    match step
    case Receive(meta, image) => if CanReceive(env, r, meta, image) { ReceiveSecure(env, meta, image, r); }
    case Crash => CrashSecure(env, r);
    case _ => QuietSecure(env, step, r);
  }

  lemma {:induction false} SecureRun<U>(env: Env<U>, steps: seq<Step<U>>, r: Replica<U>)
    requires ValidEnv(env) && Inv(env, r) && SecureInv(r) && PurgesSecured(env, steps, r)
    ensures SecureInv(RunSteps(env, steps, r))
    decreases |steps|
  {
    hide Inv, SecureInv, Secures, Next;
    if steps != [] {
      SecureStep(env, steps[0], r);
      StepKeepsInv(env, steps[0], r);
      SecureRun(env, steps[1..], Next(env, steps[0], r));
    }
  }

  // Over every run, with crashes and installs: if every purge names an entry that a reopen would
  // find in the data, then in every reachable state, reopened ones included, the log was purged of
  // nothing that the data is still to apply.
  lemma SecuredStaysCovered<U>(env: Env<U>, steps: seq<Step<U>>, shared: bool, inMemory: bool)
    requires ValidEnv(env) && PurgesSecured(env, steps, Fresh(env, shared, inMemory))
    ensures Covered(RunOf(env, steps, shared, inMemory))
  {
    var r := Fresh(env, shared, inMemory);
    FreshInv(env, shared, inMemory);
    assert SecureInv(r);
    hide Inv, Fresh, FetchLogId, PurgesSecured;
    SecureRun(env, steps, r);
  }

  // Every purge names an entry that was applied.
  ghost predicate PurgesApplied<U>(env: Env<U>, steps: seq<Step<U>>, r: Replica<U>) {
    steps != [] ==>
      && (steps[0].WriteLog? && IsPurge(steps[0].stmt) ==> steps[0].stmt.value.logId.index < r.next)
      && PurgesApplied(env, steps[1..], Next(env, steps[0], r))
  }

  lemma {:induction false} AppliedIsSecured<U>(env: Env<U>, steps: seq<Step<U>>, r: Replica<U>)
    requires ValidEnv(env) && Inv(env, r) && NoInstall(steps) && PurgesApplied(env, steps, r)
    requires r.onDisk.None? && !LosesData(r.store)
    ensures PurgesSecured(env, steps, r)
    decreases |steps|
  {
    hide Inv, CanReceive;
    if steps != [] {
      StepKeepsInv(env, steps[0], r);
      HandlesStay(env, steps[0], r);
      if steps[0].Crash? { CrashLeavesDisk(env, r); } else { OnlyCrashLoses(env, steps[0], r); }
      hide Next;
      AppliedIsSecured(env, steps[1..], Next(env, steps[0], r));
    }
  }

  // On data that survives the process, without installs, it is enough that the purged entries were
  // applied.
  lemma AppliedPurgesCovered<U>(env: Env<U>, steps: seq<Step<U>>, shared: bool, inMemory: bool)
    requires ValidEnv(env) && NoInstall(steps) && (shared || !inMemory)
    requires PurgesApplied(env, steps, Fresh(env, shared, inMemory))
    ensures Covered(RunOf(env, steps, shared, inMemory))
  {
    FreshInv(env, shared, inMemory);
    AppliedIsSecured(env, steps, Fresh(env, shared, inMemory));
    SecuredStaysCovered(env, steps, shared, inMemory);
  }

  // ---- At a crash ----

  // A state that is covered is so after a crash and a reopen exactly if, on separate handles, the
  // data was not detached from its file by an install or nothing was purged beyond that file; on a
  // shared handle, if that file was covered; and with data in memory only, if nothing was purged.
  lemma ReopenCovered<U>(env: Env<U>, r: Replica<U>)
    requires ValidEnv(env) && Inv(env, r) && Covered(r)
    ensures Covered(CrashStep(env, r))
      <==> if LosesData(r.store) then PurgedBelow(r.store.logDb, 0)
           else if r.onDisk.None? then true
           else if r.store.shared then PurgedBelow(r.onDisk.value.db, r.onDisk.value.next)
           else PurgedBelow(r.store.logDb, r.onDisk.value.next)
  {
    if LosesData(r.store) {
      CrashDurable(env, r);
      CrashStartsOver(env, r);
    } else if r.onDisk.None? {
      CrashDurable(env, r);
      CrashPosition(env, r);
    } else {
      CrashRestores(env, r);
      if !r.store.shared { CrashDurable(env, r); }
    }
    hide Inv, CrashStep, FetchLogId, FetchVote;
  }

  lemma CrashStartsOver<U>(env: Env<U>, r: Replica<U>)
    requires ValidEnv(env) && Inv(env, r) && LosesData(r.store)
    ensures CrashStep(env, r).next == 0
    ensures r.onDisk.None?
  {
    assert Load(EmptyDb(env.empty)) == Ok(Sm(EmptyDb(env.empty), None, DEFAULT_MEMBERSHIP));
    hide DiskInv, MemoryInv, BuilderInv, FileInv, PositionInv;
  }

  // The Raft core purges what a snapshot covers. On separate handles, an install, that purge and a
  // crash leave the log purged of entries the data lacks, exactly if the snapshot held more than the
  // data before it.
  lemma PurgedBeyondData<U>(env: Env<U>, r: Replica<U>, meta: SnapshotMeta, image: Db<U>, id: LogId)
    requires ValidEnv(env) && Inv(env, r) && CanReceive(env, r, meta, image)
    requires r.onDisk.None? && !LosesData(r.store) && !r.store.shared
    requires meta.lastLogId == Some(id)
    ensures var mark := WriteLog(Upsert(LastPurgedIdKey, LogIdBlob(id)));
      var r' := CrashStep(env, RunSteps(env, [Receive(meta, image)] + [Record, mark], r));
      && FetchLogId(LastPurgedIdKey, r'.store.logDb) == Ok(Some(id))
      && Data(r'.store) == Data(r.store) && r'.next == r.next <= id.index + 1
      && (Covered(r') <==> r.next == id.index + 1)
  {
    var steps: seq<Step<U>> := [Record, WriteLog(Upsert(LastPurgedIdKey, LogIdBlob(id)))];
    assert r.next <= id.index + 1;
    MarkAlone(env.sql, id, r.store.logDb);
    hide Inv, CrashStep, RunSteps, LogAlone, CanReceive, Data, LosesData, FetchVote, FetchLogId;
    InstallUndoneByCrash(env, r, meta, image, steps);
  }

  lemma MarkAlone<U>(sql: Sql<U>, id: LogId, db: Db<U>)
    ensures FetchLogId(LastPurgedIdKey, LogAlone(sql, [Record, WriteLog(Upsert(LastPurgedIdKey, LogIdBlob(id)))], db))
      == Ok(Some(id))
  {
    var steps: seq<Step<U>> := [Record, WriteLog(Upsert(LastPurgedIdKey, LogIdBlob(id)))];
    assert steps[1..][1..] == [];
    assert LogAlone(sql, steps, db) == LogAlone(sql, steps[1..], db) == LogStep(sql, steps[1], db);
  }

  // Such a run, on a new store: the entry is in neither the log nor the data.
  lemma LosingPurge(env: Env<nat>)
    requires ValidEnv(env) && env.sql == CountStatements && env.empty == 0
    requires |env.log| == 1 && env.log[0].payload.Normal?
    ensures var id := env.log[0].logId;
      var image := Db(map[LastLogKey := LogIdBlob(id)], None, 1);
      var meta := SnapshotMeta(Some(id), DEFAULT_MEMBERSHIP, "");
      var mark := WriteLog(Upsert(LastPurgedIdKey, LogIdBlob(id)));
      var r0 := Fresh(env, false, false);
      var r := CrashStep(env, RunSteps(env, [Receive(meta, image)] + [Record, mark], r0));
      && CanReceive(env, r0, meta, image)
      && r.next == 0 && Data(r.store).user == 0 && !Covered(r)
  {
    var id := env.log[0].logId;
    var image := Db(map[LastLogKey := LogIdBlob(id)], None, 1);
    var meta := SnapshotMeta(Some(id), DEFAULT_MEMBERSHIP, "");
    FreshInv(env, false, false);
    assert ReplayWithout(env, {}, 0) == Some(Model(0, DEFAULT_MEMBERSHIP));
    assert ReplayWithout(env, {}, 1) == Some(Model(1, DEFAULT_MEMBERSHIP));
    assert CanReceive(env, Fresh(env, false, false), meta, image);
    hide Inv, CanReceive, CrashStep, RunSteps;
    PurgedBeyondData(env, Fresh(env, false, false), meta, image, id);
  }

  // ---- Re-creating data that was in memory only ----

  // Data in memory only is gone after a crash, and the Raft log is to re-create it. It can, for
  // every SQL and every history that left this log behind, if and only if nothing was ever purged.
  lemma MemoryReopen<U>(db: Db<U>, l: Log)
    requires Stores(db, l)
    ensures GetLogState(db).Ok?
    ensures GetLogState(db).value.lastPurged.None?
      <==> forall env: Env<nat> | IsTail(env, l) ::
             Replay(env.sql, l.entries, Start(env)) == Replay(env.sql, env.log, Start(env))
  {
    LogStateAgrees(db, l);
    hide Replay;
    if l.purged.Some? {
      assert RunFrom(Base(l), l.entries);
      hide Stores;
      var env := PurgedShows(l);
    } else {
      assert forall env: Env<nat> | IsTail(env, l) :: env.log == l.entries;
    }
  }

  // Some history that the purged part tells from the rest: count, and let every purged entry count.
  lemma PurgedShows(l: Log) returns (env: Env<nat>)
    requires l.purged.Some? && RunFrom(Base(l), l.entries)
    ensures IsTail(env, l)
    ensures Replay(env.sql, l.entries, Start(env)) != Replay(env.sql, env.log, Start(env))
  {
    var base := Base(l);
    var gone := SqlEntries(base);
    env := CountingEnv(gone + l.entries);
    assert env.log[base..] == l.entries;
    hide Replay;
    ReplayAppend(env.sql, gone, l.entries, Start(env));
    CountReplay(gone, Start(env));
    CountReplay(l.entries, Start(env));
    CountReplay(l.entries, Model(base, DEFAULT_MEMBERSHIP));
  }
}
