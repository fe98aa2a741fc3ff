// Which snapshot a store serves: the metadata row of the live database with the bytes of the
// snapshot file, which are written apart.
module ReplicaServing {
  import opened RaftTypes
  import opened Sqlite
  import opened StateMachine
  import opened SnapshotIds
  import opened Replica
  import opened ReplicaInvariant
  import opened ReplicaTheorems
  import opened ReplicaLoss

  // `get_current_snapshot`
  function GetCurrentSnapshot<U>(data: Db<U>, file: Option<seq<Byte>>): Result<Option<Published>> {
    match FetchMeta(data)
    case Err => Err
    case Ok(None) => Ok(None)
    case Ok(Some(meta)) => Ok(if file.None? then None else Some(Published(meta, file.value)))
  }

  function Served<U>(r: Replica<U>): Result<Option<Published>> {
    GetCurrentSnapshot(Data(r.store), r.file)
  }

  // ---- Every build has a number of its own ----

  ghost predicate Numbered<U>(env: Env<U>, meta: SnapshotMeta, n: int) {
    n >= 0 && meta.snapshotId == SnapshotId(env.leaderText, meta.lastLogId, n)
  }

  lemma NumbersDiffer<U>(env: Env<U>, a: SnapshotMeta, m: int, b: SnapshotMeta, n: int)
    requires Numbered(env, a, m) && Numbered(env, b, n) && m != n
    ensures a != b
  {
    if a == b { SnapshotIdInjective(env.leaderText, a.lastLogId, m, b.lastLogId, n); }
  }

  ghost predicate CounterFits(kv: map<Key, Value>) {
    SnapshotIndexKey in kv ==>
      kv[SnapshotIndexKey].RealCounter? || (kv[SnapshotIndexKey].Counter? && kv[SnapshotIndexKey].n >= 0)
  }

  // The numbers of the last publication, of the metadata row and of the build.
  datatype Numbers = Numbers(published: int, row: int, build: int)

  ghost predicate NumberInv<U>(env: Env<U>, r: Replica<U>, n: Numbers) {
    var limit := Limit(r.store.logDb.kv);
    var row := FetchMeta(Data(r.store));
    && r.onDisk.None? && r.installing.None?
    && CounterFits(r.store.logDb.kv)
    && (r.published.Some? ==> n.published <= limit && Numbered(env, r.published.value.meta, n.published))
    && (row.Ok? && row.value.Some? ==> Numbered(env, row.value.value, n.row))
    && (r.builder.Titled? || Describing(r.builder) ==>
          && n.build <= limit && Numbered(env, r.builder.meta, n.build)
          && (r.published.Some? ==> n.published < n.build))
    && (Describing(r.builder) ==> r.builder.mine && n.row == n.build && row == Ok(Some(r.builder.meta)))
    && (r.builder.Captured? ==> r.builder.own)
    && (r.published.Some? && r.torn && !Describing(r.builder) ==> row == Ok(None) || n.row != n.published)
  }

  ghost predicate SameNumbers<U>(s: Store<U>, s': Store<U>) {
    && (SnapshotIndexKey in s'.logDb.kv <==> SnapshotIndexKey in s.logDb.kv)
    && (SnapshotIndexKey in s.logDb.kv ==> s'.logDb.kv[SnapshotIndexKey] == s.logDb.kv[SnapshotIndexKey])
    && FetchMeta(Data(s')) == FetchMeta(Data(s))
  }

  lemma KeptNumbers<U>(env: Env<U>, r: Replica<U>, r': Replica<U>, n: Numbers)
    requires NumberInv(env, r, n) && SameNumbers(r.store, r'.store)
    requires r'.builder == r.builder && r'.published == r.published && r'.torn == r.torn
    requires r'.onDisk == r.onDisk && r'.installing == r.installing
    ensures NumberInv(env, r', n)
  {
    hide FetchMeta, Data, Numbered;
  }

  lemma ActionNumbers<U>(sql: Sql<U>, e: Entry, i: nat, s: Store<U>, sm: Sm<U>)
    requires i < |EntryActions(e)| && sm.db == Data(s)
    ensures Do(sql, EntryActions(e)[i], sm).Some? ==>
      SameNumbers(s, WithData(s, Do(sql, EntryActions(e)[i], sm).value.db))
  {
  }

  lemma ApplyNumbers<U>(env: Env<U>, r: Replica<U>, n: Numbers)
    requires NumberInv(env, r, n)
    ensures NumberInv(env, ApplyStep(env, r), n)
  {
    var r' := ApplyStep(env, r);
    if r.next < |env.log| && r.done < |EntryActions(env.log[r.next])| {
      ActionNumbers(env.sql, env.log[r.next], r.done, r.store, Memory(r));
    }
    assert SameNumbers(r.store, r'.store) by { hide EntryActions, Do, Data, WithData, FetchMeta; }
    hide NumberInv, SameNumbers, EntryActions, Do, Data, WithData;
    KeptNumbers(env, r, r', n);
  }

  lemma LogNumbers<U>(env: Env<U>, step: Step<U>, r: Replica<U>, n: Numbers)
    requires NumberInv(env, r, n) && (step.WriteLog? || step.SaveVote?)
    ensures NumberInv(env, Next(env, step, r), n)
  {
    var r' := Next(env, step, r);
    assert SameNumbers(r.store, r'.store) by { hide NumberInv; }
    hide NumberInv, SameNumbers, Exec;
    KeptNumbers(env, r, r', n);
  }

  lemma CounterMoves<U>(sql: Sql<U>, db: Db<U>)
    requires CounterFits(db.kv)
    ensures CounterFits(Bumped(db).kv) && Limit(Bumped(db).kv) >= Limit(db.kv)
    ensures BumpedValue(db).Ok? && BumpedValue(db).value.Some? ==>
      BumpedValue(db).value.value == Limit(Bumped(db).kv) == Limit(db.kv) + 1 >= 0
    ensures Exec(sql, InsertCounter, db).Some? ==>
      var kv := Exec(sql, InsertCounter, db).value.kv;
      CounterFits(kv) && Limit(kv) == 0 == Limit(db.kv) + 1
  {
  }

  lemma CountingNumbers<U>(env: Env<U>, r: Replica<U>, n: Numbers) returns (n': Numbers)
    requires NumberInv(env, r, n) && (r.builder.SawMarkers? || r.builder.NoCounter?)
    ensures NumberInv(env, BuildStep(env, r), n')
  {
    var r' := BuildStep(env, r);
    CountingTitle(env, r);
    CountingShape(env, r, r'.store.logDb, r'.builder);
    LogDbView(r.store, r'.store.logDb);
    n' := n.(build := Limit(r'.store.logDb.kv));
    hide BuildStep, FetchMeta, Data, CounterFits, Limit, FetchLogId, LoadMembership, Numbered;
  }

  // A title carries the number just taken, which is greater than every number before.
  lemma CountingTitle<U>(env: Env<U>, r: Replica<U>)
    requires CounterFits(r.store.logDb.kv) && (r.builder.SawMarkers? || r.builder.NoCounter?)
    ensures var r' := BuildStep(env, r);
      var limit, limit' := Limit(r.store.logDb.kv), Limit(r'.store.logDb.kv);
      && CounterFits(r'.store.logDb.kv) && limit <= limit'
      && (r'.builder.Titled? ==> limit < limit' && Numbered(env, r'.builder.meta, limit'))
  {
    CounterMoves(env.sql, r.store.logDb);
    hide SnapshotId, CounterFits, Limit, BumpedValue, Bumped, Exec;
  }

  lemma BuildNumbers<U>(env: Env<U>, r: Replica<U>, n: Numbers) returns (n': Numbers)
    requires NumberInv(env, r, n)
    ensures NumberInv(env, BuildStep(env, r), n')
  {
    n' := n;
    match r.builder {
    case Idle =>
    case SawApplied(_) =>
    case SawMarkers(_, _, _) => n' := CountingNumbers(env, r, n);
    case NoCounter(_, _, _) => n' := CountingNumbers(env, r, n);
    case Titled(meta, _) =>
      MetaView(Data(r.store), meta);
      StoreData(r.store, WithMeta(Data(r.store), meta));
      hide FetchMeta, Numbered;
      n' := n.(row := n.build);
    case Described(_, _, _) =>
    case Captured(_, _, _, _, _, _, _) =>
      hide FetchMeta, Numbered, Data;
      n' := n.(published := n.build);
    }
  }

  lemma CrashNumbers<U>(env: Env<U>, r: Replica<U>, n: Numbers)
    requires NumberInv(env, r, n)
    ensures NumberInv(env, CrashStep(env, r), n)
  {
    StoreData(r.store, Data(r.store));
    assert LosesData(r.store) ==> WithData(r.store, EmptyDb(env.empty)).logDb == r.store.logDb;
    assert FetchMeta(EmptyDb(env.empty)) == Ok(None);
    StoreData(r.store, EmptyDb(env.empty));
    hide FetchMeta, Numbered, Load, Data, WithData, EmptyDb, InGap, Marked;
  }

  lemma {:induction false} RunNumbers<U>(env: Env<U>, steps: seq<Step<U>>, r: Replica<U>, n: Numbers)
    returns (n': Numbers)
    requires NumberInv(env, r, n) && NoInstall(steps)
    ensures NumberInv(env, RunSteps(env, steps, r), n')
    decreases |steps|
  {
    n' := n;
    if steps != [] {
      assert r.installing.None?;
      hide NumberInv, ApplyStep, BuildStep, WriteLogStep, SaveVoteStep, CrashStep;
      match steps[0] {
      case Apply => ApplyNumbers(env, r, n);
      case Build => n' := BuildNumbers(env, r, n);
      case WriteLog(_) => LogNumbers(env, steps[0], r, n);
      case SaveVote(_) => LogNumbers(env, steps[0], r, n);
      case Receive(_, _) => assert false;
      case Record =>
      case Crash => CrashNumbers(env, r, n);
      }
      n' := RunNumbers(env, steps[1..], Next(env, steps[0], r), n');
    }
  }

  lemma RunOfNumbers<U>(env: Env<U>, steps: seq<Step<U>>, shared: bool, inMemory: bool) returns (n: Numbers)
    requires NoInstall(steps)
    ensures NumberInv(env, RunOf(env, steps, shared, inMemory), n)
  {
    var r := Fresh(env, shared, inMemory);
    assert NumberInv(env, r, Numbers(-1, -1, -1));
    n := RunNumbers(env, steps, r, Numbers(-1, -1, -1));
  }

  // ---- The image describes itself ----

  // No install is between its image and its row, and none has come between a row and its capture.
  ghost predicate Undisturbed<U>(r: Replica<U>) {
    && r.installing.None?
    && (Describing(r.builder) ==> r.builder.mine)
    && (r.builder.Captured? ==> r.builder.own)
  }

  lemma UndisturbedStep<U>(env: Env<U>, step: Step<U>, r: Replica<U>)
    requires Undisturbed(r) && !step.Receive?
    ensures Undisturbed(Next(env, step, r))
  {
    if step.Build? { UndisturbedBuild(env, r); }
    hide BuildStep, Do, EntryActions, Exec, Data, WithData, WithMeta, Found, Load, Unmine;
  }

  lemma UndisturbedBuild<U>(env: Env<U>, r: Replica<U>)
    requires Undisturbed(r)
    ensures Undisturbed(BuildStep(env, r))
  {
    if r.builder.SawMarkers? || r.builder.NoCounter? {
      CountingShape(env, r, BuildStep(env, r).store.logDb, BuildStep(env, r).builder);
      hide BuildStep;
    } else {
      hide Exec, Data, WithData, WithMeta, Bumped, BumpedValue, MetaFor, Overwrite, Settled;
    }
  }

  lemma {:induction false} UndisturbedRun<U>(env: Env<U>, steps: seq<Step<U>>, r: Replica<U>)
    requires Undisturbed(r) && NoInstall(steps)
    ensures Undisturbed(RunSteps(env, steps, r))
    decreases |steps|
  {
    hide Undisturbed, Next;
    if steps != [] {
      UndisturbedStep(env, steps[0], r);
      UndisturbedRun(env, steps[1..], Next(env, steps[0], r));
    }
  }

  // An image captured in a run with no install since before the build carries its own metadata:
  // whatever is interleaved, crashes included, and whatever was installed earlier.
  lemma ImageDescribesItself<U>(env: Env<U>, steps: seq<Step<U>>, r: Replica<U>)
    requires ValidEnv(env) && Inv(env, r) && NoInstall(steps)
    requires !Describing(r.builder) && r.installing.None?
    ensures var b := RunSteps(env, steps, r).builder;
      b.Captured? ==> FetchMeta(b.image) == Ok(Some(b.meta))
  {
    assert Undisturbed(r);
    hide *;
    UndisturbedRun(env, steps, r);
    RunKeepsInv(env, steps, r);
    OwnRow(env, RunSteps(env, steps, r));
  }

  lemma OwnRow<U>(env: Env<U>, r: Replica<U>)
    requires Inv(env, r) && Undisturbed(r)
    ensures r.builder.Captured? ==> FetchMeta(r.builder.image) == Ok(Some(r.builder.meta))
  {
    assert BuilderInv(env, r);
    hide Inv, FetchMeta, FetchLogId, LoadMembership, MetaFits, ReplayWithout, IdAt, Remembered;
  }

  // ---- The served snapshot ----

  // Over every run without installs, the served snapshot is the last one published if and only if
  // nothing was published, or the last publication was not shorter than the file it overwrote, no
  // build has written its row and not yet its file, and no crash came between such a row and its
  // file, or took in-memory data with it, since.
  lemma ServedIsPublished<U>(env: Env<U>, steps: seq<Step<U>>, shared: bool, inMemory: bool)
    requires ValidEnv(env) && NoInstall(steps)
    ensures var r := RunOf(env, steps, shared, inMemory);
      Served(r) == Ok(r.published)
      <==> r.published.None? || (!r.shrunk && !r.torn && !Describing(r.builder))
  {
    var r := RunOf(env, steps, shared, inMemory);
    ReachableInv(env, steps, shared, inMemory);
    var n := RunOfNumbers(env, steps, shared, inMemory);
    assert FileInv(r);
    hide RunOf, Inv, Data, FetchMeta, Numbered;
    if r.published.Some? && Served(r).Ok? && Served(r).value.Some? && (r.torn || Describing(r.builder)) {
      NumbersDiffer(env, r.published.value.meta, n.published, Served(r).value.value.meta, n.row);
    }
  }

  // A crash after the metadata row and before the file pairs the new metadata with the old file.
  // That is never the last publication, once there was one.
  lemma TornByCrash<U>(env: Env<U>, steps: seq<Step<U>>, shared: bool, inMemory: bool)
    requires ValidEnv(env) && NoInstall(steps) && (shared || !inMemory)
    ensures var r := RunOf(env, steps, shared, inMemory);
      Describing(r.builder) ==>
        var r' := CrashStep(env, r);
        && Served(r') == Ok(if r.file.None? then None else Some(Published(r.builder.meta, r.file.value)))
        && (r.file.None? <==> r.published.None?)
        && (r.published.Some? ==> r.builder.meta != r.published.value.meta)
        && (Served(r') == Ok(r'.published) <==> r.published.None?)
  {
    var r := RunOf(env, steps, shared, inMemory);
    ReachableInv(env, steps, shared, inMemory);
    var n := RunOfNumbers(env, steps, shared, inMemory);
    assert FileInv(r);
    if Describing(r.builder) {
      if r.published.Some? { NumbersDiffer(env, r.builder.meta, n.build, r.published.value.meta, n.published); }
      SameHandlesRun(env, steps, Fresh(env, shared, inMemory));
      CrashLoses(env, r);
      CrashPosition(env, r);
      hide RunOf, Inv, Data, FetchMeta, Numbered, Load, WithData, Found;
      assert r.published.None? ==> r.file.None?;
    }
  }

  lemma {:induction false} SameHandlesRun<U>(env: Env<U>, steps: seq<Step<U>>, r: Replica<U>)
    ensures SameHandles(r, RunSteps(env, steps, r))
    decreases |steps|
  {
    hide Next;
    if steps != [] {
      HandlesStay(env, steps[0], r);
      SameHandlesRun(env, steps[1..], Next(env, steps[0], r));
    }
  }

  // The file holds the new bytes followed by what the old file had beyond them, so it is the
  // snapshot exactly when the old file was no longer than it.
  lemma OverwriteExact(file: Option<seq<Byte>>, bytes: seq<Byte>)
    ensures var r := Overwrite(file, bytes);
      && bytes <= r
      && (file.Some? && |file.value| > |bytes| ==> r[|bytes|..] == file.value[|bytes|..])
      && (r == bytes <==> file.None? || |file.value| <= |bytes|)
  {
  }

  // ---- After an install ----

  // A build step that writes the metadata row, taken somewhere in the run.
  ghost predicate Describes<U>(env: Env<U>, steps: seq<Step<U>>, r: Replica<U>) {
    steps != [] && ((steps[0].Build? && r.builder.Titled?) || Describes(env, steps[1..], Next(env, steps[0], r)))
  }

  lemma RowKept<U>(env: Env<U>, step: Step<U>, r: Replica<U>)
    requires !step.Receive? && !step.Crash? && !(step.Build? && r.builder.Titled?) && r.installing.None?
    ensures var r' := Next(env, step, r);
      FetchMeta(Data(r'.store)) == FetchMeta(Data(r.store)) && r'.installing.None?
  {
    match step
    case Apply =>
      if r.next < |env.log| && r.done < |EntryActions(env.log[r.next])| {
        ActionNumbers(env.sql, env.log[r.next], r.done, r.store, Memory(r));
      }
      hide EntryActions, Do, Data, WithData, FetchMeta;
    case Build =>
      if r.builder.SawMarkers? || r.builder.NoCounter? {
        CountingShape(env, r, BuildStep(env, r).store.logDb, BuildStep(env, r).builder);
        LogDbView(r.store, BuildStep(env, r).store.logDb);
        hide BuildStep, Data, FetchMeta;
      }
    case _ =>
  }

  lemma {:induction false} RowKeptRun<U>(env: Env<U>, steps: seq<Step<U>>, r: Replica<U>)
    requires NoInstall(steps) && Crash !in steps && !Describes(env, steps, r) && r.installing.None?
    ensures FetchMeta(Data(RunSteps(env, steps, r).store)) == FetchMeta(Data(r.store))
    decreases |steps|
  {
    if steps != [] {
      assert steps[0] in steps;
      RowKept(env, steps[0], r);
      hide Next, FetchMeta, Data;
      RowKeptRun(env, steps[1..], Next(env, steps[0], r));
    }
  }

  lemma RecordedRow<U>(r: Replica<U>)
    requires r.installing.Some?
    ensures FetchMeta(Data(RecordStep(r).store)) == Ok(Some(r.installing.value)) && RecordStep(r).installing.None?
  {
    MetaView(Data(r.store), r.installing.value);
    StoreData(r.store, WithMeta(Data(r.store), r.installing.value));
    hide Data, WithData, FetchMeta, Unmine;
  }

  // An install writes no file. From its metadata row until the next build writes one, whatever
  // else happens short of a crash or another install: what is served is the received metadata with
  // the bytes of this store's own last build, or nothing if it never built. So the received
  // snapshot is served exactly if this store had published those very bytes.
  lemma ServedAfterInstall<U>(
    env: Env<U>, r: Replica<U>, steps: seq<Step<U>>, bytes: seq<Byte>)
    requires ValidEnv(env) && Inv(env, r) && r.installing.Some?
    requires NoInstall(steps) && Crash !in steps && !Describes(env, steps, RecordStep(r))
    ensures var r' := RunSteps(env, steps, RecordStep(r));
      var meta := r.installing.value;
      && Served(r') == Ok(if r'.file.None? then None else Some(Published(meta, r'.file.value)))
      && (r'.file.None? <==> r'.published.None?)
      && (!r'.shrunk ==>
            (Served(r') == Ok(Some(Published(meta, bytes)))
             <==> r'.published.Some? && r'.published.value.bytes == bytes))
  {
    var r1 := RecordStep(r);
    RecordedRow(r);
    RecordKeepsInv(env, r);
    RowKeptRun(env, steps, r1);
    RunKeepsInv(env, steps, r1);
    assert FileInv(RunSteps(env, steps, r1));
    hide Inv, RunSteps, RecordStep, FetchMeta, Data;
  }
}
