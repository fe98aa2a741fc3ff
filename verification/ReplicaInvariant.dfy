// Every step of a store keeps the invariant.
module ReplicaInvariant {
  import opened RaftTypes
  import opened Sqlite
  import opened StateMachine
  import opened SnapshotIds
  import opened Replica

  // ---- What a statement leaves alone ----

  // The three rows of the key-value table that the state machine reads, and the user tables.
  ghost predicate SameView<U>(db: Db<U>, db': Db<U>) {
    && FetchLogId(LastLogKey, db') == FetchLogId(LastLogKey, db)
    && LoadMembership(db') == LoadMembership(db)
    && FetchMeta(db') == FetchMeta(db)
    && db'.user == db.user
  }

  lemma LogWriteView<U>(sql: Sql<U>, stmt: Stmt, db: Db<U>)
    requires IsLogWrite(stmt) && Exec(sql, stmt, db).Some?
    ensures SameView(db, Exec(sql, stmt, db).value)
  {
  }

  lemma CounterView<U>(sql: Sql<U>, db: Db<U>)
    ensures SameView(db, db) && SameView(db, Bumped(db))
    ensures Exec(sql, InsertCounter, db).Some? ==>
      SameView(db, Exec(sql, InsertCounter, db).value)
  {
  }

  lemma StoreData<U>(s: Store<U>, db: Db<U>)
    ensures Data(WithData(s, db)) == db
    ensures WithData(s, Data(s)) == s
    ensures WithData(s, db).shared == s.shared && WithData(s, db).inMemory == s.inMemory
  {
  }

  lemma {:induction false} LostBeyond<U>(env: Env<U>, lost: set<nat>, k: nat, n: nat)
    requires n <= |env.log| && n <= k
    ensures ReplayWithout(env, lost + {k}, n) == ReplayWithout(env, lost, n)
  {
    if n > 0 { LostBeyond(env, lost, k, n - 1); }
  }

  // ---- Steps that leave the view alone ----

  lemma FrameInv<U>(env: Env<U>, r: Replica<U>, r': Replica<U>)
    requires Inv(env, r)
    requires r' == r.(store := r'.store)
    requires SameView(Data(r.store), Data(r'.store)) && LosesData(r'.store) == LosesData(r.store)
    ensures Inv(env, r')
  {
    hide FetchLogId, LoadMembership, FetchMeta, Data, LosesData, ReplayWithout, EntryActions,
         MetaFits, SeenFits, ImageFits, Recalls, HistoryOf, SavedInv;
  }

  lemma WriteLogKeepsInv<U>(env: Env<U>, stmt: Stmt, r: Replica<U>)
    requires Inv(env, r)
    ensures Inv(env, WriteLogStep(env, stmt, r))
  {
    if IsLogWrite(stmt) && Exec(env.sql, stmt, r.store.logDb).Some? {
      LogWriteView(env.sql, stmt, r.store.logDb);
      hide Inv, FetchLogId, LoadMembership, FetchMeta, Exec;
      FrameInv(env, r, WriteLogStep(env, stmt, r));
    }
  }

  lemma SaveVoteKeepsInv<U>(env: Env<U>, v: Vote, r: Replica<U>)
    requires Inv(env, r)
    ensures Inv(env, SaveVoteStep(v, r))
  {
    var r' := SaveVoteStep(v, r);
    assert SameView(Data(r.store), Data(r'.store));
    hide Inv, FetchLogId, LoadMembership, FetchMeta;
    FrameInv(env, r, r');
  }

  // ---- The apply loop ----

  // The position only moved forward and the metadata row is the same.
  ghost predicate Forward<U>(r: Replica<U>, r': Replica<U>) {
    && r'.next >= r.next && Remembered(r') >= Remembered(r) && Marked(r') >= Marked(r)
    && r'.lost == r.lost && r'.builder == r.builder
    && FetchMeta(Data(r'.store)) == FetchMeta(Data(r.store))
  }

  lemma ForwardKeepsBuilder<U>(env: Env<U>, r: Replica<U>, r': Replica<U>)
    requires BuilderInv(env, r) && Forward(r, r')
    ensures BuilderInv(env, r')
  {
    hide FetchLogId, LoadMembership, FetchMeta, Data, IdAt, EntryActions, SeenFits, ImageFits, Remembered;
  }

  // What an apply step may change besides the position and the data handle.
  ghost predicate ApplyOnly<U>(r: Replica<U>, r': Replica<U>) {
    && Forward(r, r')
    && r'.installing == r.installing == None
    && r'.file == r.file && r'.crashes == r.crashes && r'.onDisk == r.onDisk
    && r'.published == r.published && r'.torn == r.torn && r'.shrunk == r.shrunk
    && LosesData(r'.store) == LosesData(r.store)
  }

  lemma ApplyOnlyInv<U>(env: Env<U>, r: Replica<U>, r': Replica<U>)
    requires Inv(env, r) && ApplyOnly(r, r')
    requires PositionInv(env, r') && DiskInv(env, r') && MemoryInv(env, r')
    requires HistoryOf(env, r'.next, r'.lost, r'.crashes, r'.ran)
    ensures Inv(env, r')
  {
    hide DiskInv, MemoryInv, PositionInv, HistoryOf, SavedInv, LosesData;
    ForwardKeepsBuilder(env, r, r');
  }

  // The entry at `next` is complete: an SQL entry has just run.
  lemma HistoryAdvance<U>(env: Env<U>, r: Replica<U>, r': Replica<U>)
    requires HistoryOf(env, r.next, r.lost, r.crashes, r.ran)
    requires r.next < |env.log| && r'.next == r.next + 1
    requires r'.lost == r.lost && r'.crashes == r.crashes
    requires r'.ran == if env.log[r.next].payload.Normal? then r.ran + [r.next] else r.ran
    ensures HistoryOf(env, r'.next, r'.lost, r'.crashes, r'.ran)
  {
    hide EntryActions;
    if env.log[r.next].payload.Normal? {
      forall i | 0 <= i < |r.ran| ensures r.ran[i] < r.next { assert r.ran[i] in r.ran; }
      assert forall i: nat :: i in r'.ran <==> i in r.ran || i == r.next;
      assert r.next !in r.lost;
    }
  }

  // The five kinds of apply step, spelled out.
  function Write<U>(r: Replica<U>, key: Key, value: Value): Store<U> {
    WithData(r.store, Data(r.store).(kv := Data(r.store).kv[key := value]))
  }

  lemma ApplyShape<U>(env: Env<U>, r: Replica<U>)
    requires PositionInv(env, r) && !r.halted && r.installing.None? && r.next < |env.log|
    ensures var r', e := ApplyStep(env, r), env.log[r.next];
      && (r.done == 0 ==> r' == r.(store := Write(r, LastLogKey, LogIdBlob(e.logId)), done := 1))
      && (r.done == 1 ==> r' == r.(applied := Some(e.logId),
                                   next := if e.payload.Blank? then r.next + 1 else r.next,
                                   done := if e.payload.Blank? then 0 else 2))
      && (r.done == 2 && e.payload.Normal? ==>
            var user := env.sql(e.payload.sql, e.payload.params, Data(r.store).user);
            r' == if user.None? then r.(halted := true)
                  else r.(store := WithData(r.store, Data(r.store).(user := user.value)),
                          next := r.next + 1, done := 0, ran := r.ran + [r.next]))
      && (r.done >= 2 && e.payload.MembershipChange? ==>
            var em := EffectiveMembership(Some(e.logId), e.payload.membership);
            r' == if r.done == 2 then r.(store := Write(r, LastMembershipKey, MembershipBlob(em)), done := 3)
                  else r.(membership := em, next := r.next + 1, done := 0))
      && (r.done >= 2 ==> !e.payload.Blank?) && (r.done >= 3 ==> !e.payload.Normal?)
  {
    StoreData(r.store, Data(r.store));
  }

  lemma MarkerViews<U>(db: Db<U>, id: LogId, em: EffectiveMembership)
    ensures var db' := db.(kv := db.kv[LastLogKey := LogIdBlob(id)]);
      && FetchLogId(LastLogKey, db') == Ok(Some(id)) && LoadMembership(db') == LoadMembership(db)
      && FetchMeta(db') == FetchMeta(db)
    ensures var db' := db.(kv := db.kv[LastMembershipKey := MembershipBlob(em)]);
      && FetchLogId(LastLogKey, db') == FetchLogId(LastLogKey, db) && LoadMembership(db') == Ok(em)
      && FetchMeta(db') == FetchMeta(db)
  {
  }

  // Action 0: the marker goes to disk.
  lemma MarkerKeepsInv<U>(env: Env<U>, r: Replica<U>, r': Replica<U>)
    requires ValidEnv(env) && Inv(env, r) && !r.halted && r.installing.None? && r.next < |env.log| && r.done == 0
    requires r' == r.(store := Write(r, LastLogKey, LogIdBlob(env.log[r.next].logId)), done := 1)
    ensures Inv(env, r')
  {
    var id := env.log[r.next].logId;
    MarkerViews(Data(r.store), id, DEFAULT_MEMBERSHIP);
    StoreData(r.store, Data(r.store).(kv := Data(r.store).kv[LastLogKey := LogIdBlob(id)]));
    hide FetchLogId, FetchMeta, LoadMembership, Data, WithData, BuilderInv, FileInv;
    assert ApplyOnly(r, r');
    ApplyOnlyInv(env, r, r');
  }

  // Action 1: the marker is remembered; a blank entry is then complete.
  lemma RememberKeepsInv<U>(env: Env<U>, r: Replica<U>, r': Replica<U>)
    requires ValidEnv(env) && Inv(env, r) && !r.halted && r.installing.None? && r.next < |env.log| && r.done == 1
    requires var e := env.log[r.next];
      r' == r.(applied := Some(e.logId), next := if e.payload.Blank? then r.next + 1 else r.next,
               done := if e.payload.Blank? then 0 else 2)
    ensures Inv(env, r')
  {
    hide FetchLogId, FetchMeta, LoadMembership, Data, BuilderInv, FileInv;
    if env.log[r.next].payload.Blank? { HistoryAdvance(env, r, r'); }
    assert ApplyOnly(r, r');
    ApplyOnlyInv(env, r, r');
  }

  // Action 2 of an SQL entry: the user tables change, or the statement is rejected.
  lemma SqlKeepsInv<U>(env: Env<U>, r: Replica<U>, r': Replica<U>, user: U)
    requires ValidEnv(env) && Inv(env, r) && !r.halted && r.installing.None? && r.next < |env.log| && r.done == 2
    requires var e := env.log[r.next];
      e.payload.Normal? && env.sql(e.payload.sql, e.payload.params, Data(r.store).user) == Some(user)
    requires r' == r.(store := WithData(r.store, Data(r.store).(user := user)),
                      next := r.next + 1, done := 0, ran := r.ran + [r.next])
    ensures Inv(env, r')
  {
    hide BuilderInv, FileInv;
    StoreData(r.store, Data(r'.store));
    HistoryAdvance(env, r, r');
    hide HistoryInv;
    assert ApplyOnly(r, r');
    ApplyOnlyInv(env, r, r');
  }

  lemma RejectedKeepsInv<U>(env: Env<U>, r: Replica<U>)
    requires Inv(env, r) && r.next < |env.log| && r.done == 2 && env.log[r.next].payload.Normal?
    ensures Inv(env, r.(halted := true))
  {
    hide FetchLogId, FetchMeta, LoadMembership, Data, ReplayWithout;
  }

  // Actions 2 and 3 of a membership entry: to disk, then to memory.
  lemma MembershipToDisk<U>(env: Env<U>, r: Replica<U>, r': Replica<U>)
    requires ValidEnv(env) && Inv(env, r) && !r.halted && r.installing.None? && r.next < |env.log| && r.done == 2
    requires var e := env.log[r.next];
      && e.payload.MembershipChange?
      && var em := EffectiveMembership(Some(e.logId), e.payload.membership);
         r' == r.(store := Write(r, LastMembershipKey, MembershipBlob(em)), done := 3)
    ensures Inv(env, r')
  {
    var em := EffectiveMembership(Some(env.log[r.next].logId), env.log[r.next].payload.membership);
    MarkerViews(Data(r.store), env.log[r.next].logId, em);
    StoreData(r.store, Data(r.store).(kv := Data(r.store).kv[LastMembershipKey := MembershipBlob(em)]));
    hide FetchLogId, FetchMeta, LoadMembership, Data, WithData, BuilderInv, FileInv;
    assert ApplyOnly(r, r');
    ApplyOnlyInv(env, r, r');
  }

  lemma MembershipToMemory<U>(env: Env<U>, r: Replica<U>, r': Replica<U>)
    requires ValidEnv(env) && Inv(env, r) && !r.halted && r.installing.None? && r.next < |env.log| && r.done == 3
    requires var e := env.log[r.next];
      && e.payload.MembershipChange?
      && r' == r.(membership := EffectiveMembership(Some(e.logId), e.payload.membership),
                  next := r.next + 1, done := 0)
    ensures Inv(env, r')
  {
    hide FetchLogId, FetchMeta, LoadMembership, Data, BuilderInv, FileInv;
    HistoryAdvance(env, r, r');
    assert ApplyOnly(r, r');
    ApplyOnlyInv(env, r, r');
  }

  lemma ApplyKeepsInv<U>(env: Env<U>, r: Replica<U>)
    requires ValidEnv(env) && Inv(env, r)
    ensures Inv(env, ApplyStep(env, r))
  {
    if !r.halted && r.installing.None? && r.next < |env.log| {
      ApplyShape(env, r);
      var r', e := ApplyStep(env, r), env.log[r.next];
      assert r.done < 4;
      hide Inv, ApplyStep;
      if r.done == 0 {
        MarkerKeepsInv(env, r, r');
      } else if r.done == 1 {
        RememberKeepsInv(env, r, r');
      } else if e.payload.Normal? {
        var user := env.sql(e.payload.sql, e.payload.params, Data(r.store).user);
        if user.Some? { SqlKeepsInv(env, r, r', user.value); } else { RejectedKeepsInv(env, r); }
      } else if r.done == 2 {
        MembershipToDisk(env, r, r');
      } else {
        MembershipToMemory(env, r, r');
      }
    }
  }

  // ---- The snapshot build ----

  // What a build step may change: the builder, the counter, the metadata row, the file.
  ghost predicate BuildOnly<U>(r: Replica<U>, r': Replica<U>) {
    && r' == r.(store := r'.store, builder := r'.builder, file := r'.file,
                published := r'.published, torn := r'.torn, shrunk := r'.shrunk)
    && FetchLogId(LastLogKey, Data(r'.store)) == FetchLogId(LastLogKey, Data(r.store))
    && LoadMembership(Data(r'.store)) == LoadMembership(Data(r.store))
    && Data(r'.store).user == Data(r.store).user
    && LosesData(r'.store) == LosesData(r.store)
  }

  lemma BuildOnlyInv<U>(env: Env<U>, r: Replica<U>, r': Replica<U>)
    requires Inv(env, r) && BuildOnly(r, r')
    requires BuilderInv(env, r')
    requires FileInv(r')
    ensures Inv(env, r')
  {
    hide BuilderInv, FileInv, FetchLogId, LoadMembership, FetchMeta, Data, LosesData, ReplayWithout, EntryActions,
         HistoryOf, SavedInv, Recalls;
  }

  // A step that only reads moves nothing but the builder.
  lemma BuilderOnlyInv<U>(env: Env<U>, r: Replica<U>, r': Replica<U>)
    requires Inv(env, r) && r' == r.(builder := r'.builder) && Describing(r'.builder) == Describing(r.builder)
    requires BuilderInv(env, r')
    ensures Inv(env, r')
  {
    assert BuildOnly(r, r');
    assert FileInv(r) && FileInv(r');
    hide Inv, BuildOnly, BuilderInv, FileInv;
    BuildOnlyInv(env, r, r');
  }

  // What memory shows is the id of an entry no later than the last one remembered.
  lemma AppliedIsFit<U>(env: Env<U>, r: Replica<U>)
    requires ValidEnv(env) && PositionInv(env, r) && MemoryInv(env, r)
    ensures AppliedFits(env, r.applied, Remembered(r))
    ensures Remembered(r) <= r.next + 1 && Recalls(env, r.since, r.lost, r.next, r.membership)
  {
    hide ReplayWithout, EntryActions;
  }

  // Reading the two markers, one after the other.
  lemma ReadingKeepsInv<U>(env: Env<U>, r: Replica<U>)
    requires ValidEnv(env) && Inv(env, r) && (r.builder.Idle? || r.builder.SawApplied?)
    ensures Inv(env, BuildStep(env, r))
  {
    var r' := BuildStep(env, r);
    AppliedIsFit(env, r);
    assert BuilderInv(env, r);
    hide Inv, AppliedFits, Recalls, ImageFits, MetaFits, Remembered;
    assert r.builder.SawApplied? ==> SeenFits(env, r.builder.applied, r.membership, r'.builder.seen) by {
      hide BuilderInv;
      if r.builder.SawApplied? { LaterIsFit(env, r, r.builder.applied); }
    }
    hide SeenFits;
    BuilderOnlyInv(env, r, r');
  }

  lemma LaterIsFit<U>(env: Env<U>, r: Replica<U>, applied: Option<LogId>)
    requires BuilderInv(env, r) && r.builder == SawApplied(applied) && Remembered(r) <= r.next + 1
    ensures AppliedFits(env, applied, r.next + 1)
  {
  }

  // Taking an index from the counter of the log handle: the builder has its title, has found no
  // counter, or has failed.
  lemma CountingShape<U>(env: Env<U>, r: Replica<U>, db': Db<U>, b': Builder<U>)
    requires r.builder.SawMarkers? || r.builder.NoCounter?
    requires db' == BuildStep(env, r).store.logDb && b' == BuildStep(env, r).builder
    ensures BuildStep(env, r) == r.(store := r.store.(logDb := db'), builder := b')
    ensures SameView(r.store.logDb, db')
    ensures var b := r.builder;
      || b' == Idle
      || b' == NoCounter(b.applied, b.membership, b.seen)
      || (b'.Titled? && b'.seen == b.seen && b'.meta.lastLogId == b.applied && b'.meta.lastMembership == b.membership)
  {
    hide Bumped, BumpedValue, Exec, SameView, SnapshotId, Data, WithData, WithMeta, Overwrite, Settled;
    CounterView(env.sql, r.store.logDb);
    if r.builder.NoCounter? {
      assert db' == if b'.Idle? then r.store.logDb else Exec(env.sql, InsertCounter, r.store.logDb).value;
    } else {
      assert db' == Bumped(r.store.logDb);
    }
  }

  lemma LogDbView<U>(s: Store<U>, db: Db<U>)
    requires SameView(s.logDb, db)
    ensures SameView(Data(s), Data(s.(logDb := db)))
  {
  }

  lemma CountingKeepsInv<U>(env: Env<U>, r: Replica<U>)
    requires Inv(env, r) && (r.builder.SawMarkers? || r.builder.NoCounter?)
    ensures Inv(env, BuildStep(env, r))
  {
    var r' := BuildStep(env, r);
    CountingShape(env, r, r'.store.logDb, r'.builder);
    LogDbView(r.store, r'.store.logDb);
    hide FetchLogId, LoadMembership, FetchMeta, Data, ReplayWithout, EntryActions, BuildStep,
         PositionInv, DiskInv, MemoryInv, HistoryInv, AppliedFits, SeenFits;
    BuildOnlyInv(env, r, r');
  }

  lemma MetaView<U>(db: Db<U>, meta: SnapshotMeta)
    ensures var db' := WithMeta(db, meta);
      && FetchLogId(LastLogKey, db') == FetchLogId(LastLogKey, db)
      && LoadMembership(db') == LoadMembership(db)
      && FetchMeta(db') == Ok(Some(meta))
      && db'.user == db.user
  {
  }

  lemma DescribingKeepsInv<U>(env: Env<U>, r: Replica<U>)
    requires Inv(env, r) && r.builder.Titled?
    ensures Inv(env, BuildStep(env, r))
  {
    var r', db := BuildStep(env, r), Data(r.store);
    MetaView(db, r.builder.meta);
    StoreData(r.store, WithMeta(db, r.builder.meta));
    hide FetchLogId, LoadMembership, FetchMeta, Data, WithData, WithMeta, ReplayWithout, EntryActions,
         PositionInv, DiskInv, MemoryInv, HistoryInv, MetaFits;
    BuildOnlyInv(env, r, r');
  }

  lemma CapturingKeepsInv<U>(env: Env<U>, r: Replica<U>)
    requires ValidEnv(env) && Inv(env, r) && r.builder.Described?
    ensures Inv(env, BuildStep(env, r))
  {
    var r' := BuildStep(env, r);
    CapturedFits(env, r);
    assert BuilderInv(env, r);
    hide Inv, MetaFits, ImageFits, Settled, Remembered, Data;
    BuilderOnlyInv(env, r, r');
  }

  lemma CapturedFits<U>(env: Env<U>, r: Replica<U>)
    requires ValidEnv(env) && Inv(env, r) && r.builder.Described?
    ensures ImageFits(env, r.builder.meta, Data(r.store), Settled(r), r.lost, r.builder.mine)
  {
    assert NextIndex(IdAt(env, Marked(r))) == Marked(r);
    assert Settled(r) == Marked(r) || Settled(r) == Marked(r) - 1;
    assert FetchMeta(Data(r.store)).Ok? by { assert FileInv(r); }
    hide FetchLogId, LoadMembership, FetchMeta, Data, ReplayWithout, EntryActions, IdAt,
         Settled, HistoryInv, MemoryInv, FileInv, SeenFits;
  }

  lemma PublishingKeepsInv<U>(env: Env<U>, r: Replica<U>)
    requires Inv(env, r) && r.builder.Captured?
    ensures Inv(env, BuildStep(env, r))
  {
    hide FetchLogId, LoadMembership, FetchMeta, Data, LosesData, ReplayWithout, EntryActions, MetaFits, ImageFits,
         PositionInv, DiskInv, MemoryInv, HistoryInv;
    BuildOnlyInv(env, r, BuildStep(env, r));
  }

  lemma BuildKeepsInv<U>(env: Env<U>, r: Replica<U>)
    requires ValidEnv(env) && Inv(env, r)
    ensures Inv(env, BuildStep(env, r))
  {
    hide Inv, BuildStep;
    if r.builder.Idle? || r.builder.SawApplied? { ReadingKeepsInv(env, r); }
    else if r.builder.SawMarkers? || r.builder.NoCounter? { CountingKeepsInv(env, r); }
    else if r.builder.Titled? { DescribingKeepsInv(env, r); }
    else if r.builder.Described? { CapturingKeepsInv(env, r); }
    else { PublishingKeepsInv(env, r); }
  }

  // ---- Installs ----

  lemma {:induction false} SqlBelowIs(log: seq<Entry>, n: nat)
    requires n <= |log|
    ensures var ran := SqlBelow(log, n);
      && (forall i, j :: 0 <= i < j < |ran| ==> ran[i] < ran[j])
      && (forall i: nat :: i in ran <==> i < n && log[i].payload.Normal?)
  {
    if n > 0 {
      SqlBelowIs(log, n - 1);
      var before := SqlBelow(log, n - 1);
      forall i | 0 <= i < |before| ensures before[i] < n - 1 { assert before[i] in before; }
    }
  }

  // The position moved to a later entry, at rest.
  lemma UnminedFits<U>(env: Env<U>, r: Replica<U>, r': Replica<U>)
    requires BuilderInv(env, r) && r'.builder == Unmine(r.builder) && Remembered(r) <= Remembered(r')
    ensures BuilderInv(env, r')
  {
    hide FetchLogId, LoadMembership, FetchMeta, Data, IdAt, SeenFits, ImageFits, Remembered;
  }

  lemma ReceivedHistory<U>(env: Env<U>, r: Replica<U>, r': Replica<U>)
    requires PositionInv(env, r) && DiskInv(env, r) && HistoryInv(env, r) && FileInv(r)
    requires r.done == 0 && r'.done == 0 && !r'.halted && r'.next <= |env.log|
    requires r'.lost == {} && r'.ran == SqlBelow(env.log, r'.next) && r'.crashes == r.crashes
    requires LosesData(r'.store) == LosesData(r.store)
    requires r'.onDisk == if LosesData(r.store) || r.onDisk.Some? then r.onDisk
                          else Some(Saved(Data(r.store), r.next, r.lost, r.ran))
    ensures HistoryInv(env, r')
  {
    SqlBelowIs(env.log, r'.next);
    hide SqlBelow, FetchLogId, LoadMembership, FetchMeta, Data, LosesData, ReplayWithout, EntryActions, IdAt;
  }

  lemma ReceivedMemory<U>(env: Env<U>, r: Replica<U>, r': Replica<U>)
    requires ValidEnv(env) && PositionInv(env, r) && MemoryInv(env, r) && r.done == 0
    requires r.next <= r'.next <= |env.log| && r'.done == 0 && !r'.halted
    requires r'.since == Since(r'.next, r.applied, r.membership, true)
    requires r'.applied == r.applied && r'.membership == r.membership
    requires ReplayWithout(env, r'.lost, r'.next).Some?
    ensures PositionInv(env, r') && MemoryInv(env, r')
  {
    AppliedIsFit(env, r);
    hide ReplayWithout, IdAt, Recalls;
    assert Recalls(env, r'.since, r'.lost, r'.next, r'.membership) by {
      hide *;
      ReceivedRecalls(env, r'.since, r'.lost);
    }
  }

  lemma ReceivedRecalls<U>(env: Env<U>, since: Since, lost: set<nat>)
    requires since.installed && AppliedFits(env, since.applied, since.base) && since.base <= |env.log|
    requires ReplayWithout(env, lost, since.base).Some?
    ensures Recalls(env, since, lost, since.base, since.membership)
  {
  }

  lemma ReceiveKeepsInv<U>(env: Env<U>, meta: SnapshotMeta, image: Db<U>, r: Replica<U>)
    requires ValidEnv(env) && Inv(env, r)
    ensures Inv(env, ReceiveStep(env, meta, image, r))
  {
    if CanReceive(env, r, meta, image) {
      var r' := ReceiveStep(env, meta, image, r);
      StoreData(r.store, image);
      ReceivedHistory(env, r, r');
      ReceivedMemory(env, r, r');
      UnminedFits(env, r, r');
      hide Data, WithData, LosesData, FetchMeta, HistoryInv, MemoryInv, BuilderInv, ReplayWithout;
      assert DiskInv(env, r') && FileInv(r');
    }
  }

  lemma RecordKeepsInv<U>(env: Env<U>, r: Replica<U>)
    requires Inv(env, r)
    ensures Inv(env, RecordStep(r))
  {
    if r.installing.Some? {
      var r' := RecordStep(r);
      StoreData(r.store, WithMeta(Data(r.store), r.installing.value));
      MetaView(Data(r.store), r.installing.value);
      UnminedFits(env, r, r');
      hide Data, WithData, LosesData, FetchMeta, FetchLogId, LoadMembership, WithMeta, BuilderInv,
           ReplayWithout, HistoryOf, SavedInv, Recalls;
    }
  }

  // ---- Death and reopening ----

  lemma LostHistory<U>(env: Env<U>, r: Replica<U>)
    requires PositionInv(env, r) && HistoryOf(env, r.next, r.lost, r.crashes, r.ran)
    ensures HistoryOf(env, Marked(r), if InGap(env, r) then r.lost + {r.next} else r.lost, r.crashes + 1, r.ran)
  {
  }

  // What was marked and not settled is lost for good.
  lemma MarkedIsSettled<U>(env: Env<U>, r: Replica<U>)
    requires PositionInv(env, r)
    ensures var lost := if InGap(env, r) then r.lost + {r.next} else r.lost;
      ReplayWithout(env, lost, Marked(r)) == ReplayWithout(env, r.lost, Settled(r))
  {
    if r.next < |env.log| { LostBeyond(env, r.lost, r.next, r.next); }
  }

  // What a reopen finds is a database at rest.
  lemma FoundAtRest<U>(env: Env<U>, r: Replica<U>)
    requires ValidEnv(env) && Inv(env, r)
    ensures SavedInv(env, Found(env, r), r.crashes + 1)
    ensures Load(Found(env, r).db).Ok?
  {
    if LosesData(r.store) {
      assert Load(EmptyDb(env.empty)) == Ok(Sm(EmptyDb(env.empty), None, DEFAULT_MEMBERSHIP));
    } else if r.onDisk.None? {
      LostHistory(env, r);
      MarkedIsSettled(env, r);
      hide FetchLogId, LoadMembership, FetchMeta, Data, EntryActions, HistoryOf, InGap, ReplayWithout, IdAt;
    }
  }

  // Memory is loaded from disk.
  lemma ReopenedInv<U>(env: Env<U>, found: Saved<U>, r': Replica<U>)
    requires ValidEnv(env) && SavedInv(env, found, r'.crashes) && Load(found.db).Ok?
    requires Data(r'.store) == found.db && r'.lost == found.lost && r'.ran == found.ran
    requires r'.applied == Load(found.db).value.applied && r'.membership == Load(found.db).value.membership
    requires r'.next == NextIndex(r'.applied) && r'.done == 0 && !r'.halted
    requires r'.onDisk.None? && r'.installing.None?
    requires r'.since == Since(r'.next, r'.applied, r'.membership, false)
    ensures r'.next == found.next
    ensures PositionInv(env, r') && DiskInv(env, r') && MemoryInv(env, r') && HistoryInv(env, r')
  {
    assert NextIndex(IdAt(env, found.next)) == found.next;
    hide FetchLogId, FetchMeta, LoadMembership, Data, ReplayWithout, IdAt, HistoryOf;
  }

  lemma CrashKeepsInv<U>(env: Env<U>, r: Replica<U>)
    requires ValidEnv(env) && Inv(env, r)
    ensures Inv(env, CrashStep(env, r))
  {
    var r', found := CrashStep(env, r), Found(env, r);
    FoundAtRest(env, r);
    StoreData(r.store, found.db);
    hide Data, WithData, LosesData, Found, SavedInv, Load,
         PositionInv, DiskInv, MemoryInv, HistoryInv, FileInv;
    ReopenedInv(env, found, r');
    ReopenedFile(env, r);
  }

  lemma ReopenedFile<U>(env: Env<U>, r: Replica<U>)
    requires ValidEnv(env) && Inv(env, r)
    ensures FileInv(CrashStep(env, r))
  {
    var found := Found(env, r);
    FoundAtRest(env, r);
    StoreData(r.store, found.db);
    assert FileInv(r);
    hide Inv, Data, WithData, LosesData, FetchMeta, Load, InGap, Marked, EmptyDb;
  }
}
