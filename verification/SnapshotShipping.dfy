// Building a snapshot on one store, installing it on another, and going on from there: what the
// receiver ends with.
module SnapshotShipping {
  import opened RaftTypes
  import opened Sqlite
  import opened StateMachine
  import opened Replica
  import opened ReplicaInvariant
  import opened ReplicaTheorems
  import opened ReplicaLoss

  // `install_snapshot`: copy the bytes to a SQLite buffer (an empty one cannot be allocated),
  // load it into the data handle, then record the metadata there.
  function Install<U>(codec: Codec<U>, meta: SnapshotMeta, bytes: seq<Byte>): Result<Db<U>> {
    if bytes == [] then Err
    else match codec.deserialize(bytes)
      case None => Err
      case Some(image) => Ok(WithMeta(image, meta))
  }

  // A database image is never empty.
  ghost predicate NeverEmpty<U(!new)>(codec: Codec<U>) {
    forall db :: codec.serialize(db) != []
  }

  // What was captured arrives, under the shipped metadata. An image that carries that metadata
  // already arrives as it is.
  lemma InstallDelivers<U(!new)>(codec: Codec<U>, meta: SnapshotMeta, image: Db<U>)
    requires Lawful(codec) && NeverEmpty(codec)
    ensures var received := Install(codec, meta, codec.serialize(image));
      && received.Ok?
      && FetchMeta(received.value) == Ok(Some(meta))
      && received.value.log == image.log && received.value.user == image.user
      && (Load(image).Ok? ==> Load(received.value).Ok? && View(Load(received.value).value) == View(Load(image).value))
      && (FetchMeta(image) == Ok(Some(meta)) ==> received.value == image)
      && (Load(image).Ok? ==> Load(received.value) == Ok(Load(image).value.(db := received.value)))
  {
    if FetchMeta(image) == Ok(Some(meta)) {
      assert image.kv[SnapshotMetaKey := MetaBlob(meta)] == image.kv;
    }
  }

  // ---- The receiver ----

  // Applying never reads the in-memory markers, so the database evolves the same with any.
  lemma {:induction false} MemoryIrrelevant<U>(sql: Sql<U>, actions: seq<Action>, a: Sm<U>, b: Sm<U>)
    requires a.db == b.db
    ensures RunActions(sql, actions, a).sm.db == RunActions(sql, actions, b).sm.db
    ensures RunActions(sql, actions, a).ok == RunActions(sql, actions, b).ok
    decreases |actions|
  {
    if actions != [] && Do(sql, actions[0], a).Some? {
      MemoryIrrelevant(sql, actions[1..], Do(sql, actions[0], a).value, Do(sql, actions[0], b).value);
    }
  }

  lemma {:induction false} AcceptedIsReplay<U>(sql: Sql<U>, entries: seq<Entry>, m: Model<U>)
    ensures AcceptedPrefix(sql, entries, m) == |entries| <==> Replay(sql, entries, m).Some?
    decreases |entries|
  {
    if entries != [] && Effect(sql, entries[0], m).Some? {
      AcceptedIsReplay(sql, entries[1..], Effect(sql, entries[0], m).value);
    }
  }

  // Applying `suffix` from `sm` ends on disk with the state `full` and the marker `last`, or fails
  // when there is no such state.
  ghost predicate EndsWith<U>(sql: Sql<U>, suffix: seq<Entry>, sm: Sm<U>, full: Option<Model<U>>, last: Option<LogId>) {
    var run := RunActions(sql, BatchActions(suffix), sm);
    && (run.ok <==> full.Some?)
    && (run.ok ==>
          && Load(run.sm.db).Ok?
          && View(Load(run.sm.db).value) == full.value
          && Load(run.sm.db).value.applied == last)
  }

  // The database after applying a suffix: succeeds exactly when the suffix replays, and then
  // holds the replay and the marker of the last entry.
  lemma SuffixOnDisk<U>(sql: Sql<U>, suffix: seq<Entry>, sm: Sm<U>, disk: Sm<U>)
    requires Load(sm.db) == Ok(disk)
    ensures EndsWith(sql, suffix, sm, Replay(sql, suffix, View(disk)), LastIdOf(suffix, disk.applied))
  {
    MemoryIrrelevant(sql, BatchActions(suffix), sm, disk);
    ApplyBatch(sql, suffix, disk);
    AcceptedIsReplay(sql, suffix, View(disk));
    assert suffix[..|suffix|] == suffix;
  }

  function Start<U>(env: Env<U>): Model<U> {
    Model(env.empty, DEFAULT_MEMBERSHIP)
  }

  // The first `n` entries but for the lost ones.
  function Kept(log: seq<Entry>, lost: set<nat>, n: nat): seq<Entry>
    requires n <= |log|
  {
    if n == 0 then []
    else Kept(log, lost, n - 1) + if n - 1 in lost then [] else [log[n - 1]]
  }

  lemma {:induction false} KeptAll(log: seq<Entry>, n: nat)
    requires n <= |log|
    ensures Kept(log, {}, n) == log[..n]
  {
    if n > 0 { KeptAll(log, n - 1); }
  }

  lemma ReplayOne<U>(sql: Sql<U>, e: Entry, m: Model<U>)
    ensures Replay(sql, [e], m) == Effect(sql, e, m)
    ensures Replay(sql, [], m) == Some(m)
  {
    assert [e][1..] == [];
  }

  lemma {:induction false} ReplayKept<U>(env: Env<U>, lost: set<nat>, n: nat)
    requires n <= |env.log|
    ensures ReplayWithout(env, lost, n) == Replay(env.sql, Kept(env.log, lost, n), Start(env))
  {
    if n > 0 {
      ReplayKept(env, lost, n - 1);
      var before := Kept(env.log, lost, n - 1);
      if n - 1 in lost {
        assert before + [] == before;
      } else {
        hide Replay, Effect;
        ReplayAppend(env.sql, before, [env.log[n - 1]], Start(env));
        if Replay(env.sql, before, Start(env)).Some? {
          ReplayOne(env.sql, env.log[n - 1], Replay(env.sql, before, Start(env)).value);
        }
      }
    }
  }

  // In general the image holds the effect of `held` entries but for those its store had lost, while
  // the receiver goes on from entry `from`, the one after the metadata's log id. It then holds the
  // first `held` entries followed by those from `from` on: entries in between are applied twice or
  // not at all, and what the builder had lost is lost here too.
  lemma ReceiverReplays<U>(env: Env<U>, sm: Sm<U>, disk: Sm<U>, lost: set<nat>, held: nat, from: nat)
    requires held <= |env.log| && from <= |env.log|
    requires Load(sm.db) == Ok(disk) && ReplayWithout(env, lost, held) == Some(View(disk))
    ensures EndsWith(env.sql, env.log[from..], sm,
                     Replay(env.sql, Kept(env.log, lost, held) + env.log[from..], Start(env)),
                     LastIdOf(env.log[from..], disk.applied))
  {
    hide EndsWith, Load;
    ReplayKept(env, lost, held);
    ReplayAppend(env.sql, Kept(env.log, lost, held), env.log[from..], Start(env));
    SuffixOnDisk(env.sql, env.log[from..], sm, disk);
  }

  lemma LastOfTail<U>(env: Env<U>, from: nat, p: nat)
    requires from <= p <= |env.log|
    ensures LastIdOf(env.log[from..], IdAt(env, p)) == IdAt(env, |env.log|)
  {
  }

  // ---- Every run ----

  lemma CapturedFromStart<U>(env: Env<U>, step: Step<U>, r: Replica<U>)
    requires step != Crash && r.lost == {} && (r.builder.Captured? ==> r.builder.missing == {})
    ensures var r' := Next(env, step, r);
      r'.lost == {} && (r'.builder.Captured? ==> r'.builder.missing == {})
  {
    OnlyCrashLoses(env, step, r);
    if step.Build? { BuildMissing(env, r); }
    hide BuildStep, Do, EntryActions, Exec, Data, WithData, CanReceive, SqlBelow, LosesData;
  }

  lemma BuildMissing<U>(env: Env<U>, r: Replica<U>)
    ensures BuildStep(env, r).builder.Captured? ==> r.builder.Described? && BuildStep(env, r).builder.missing == r.lost
  {
    hide Exec, Data, WithData, Bumped, BumpedValue, MetaFor, Overwrite, Settled;
  }

  lemma {:induction false} NothingMissing<U>(env: Env<U>, steps: seq<Step<U>>, r: Replica<U>)
    requires Crash !in steps && r.lost == {} && (r.builder.Captured? ==> r.builder.missing == {})
    ensures var r' := RunSteps(env, steps, r);
      r'.lost == {} && (r'.builder.Captured? ==> r'.builder.missing == {})
    decreases |steps|
  {
    hide Next;
    if steps != [] {
      assert steps[0] in steps;
      CapturedFromStart(env, steps[0], r);
      NothingMissing(env, steps[1..], Next(env, steps[0], r));
    }
  }

  // For every run that ends with a captured image, whatever was interleaved, crashes and installs
  // included, and whatever the receiver held: the install succeeds, and going on from the metadata's
  // log id the receiver ends with the entries the image holds followed by those from there on, or
  // fails exactly if these do not replay. The image lacks what its store had lost by then, which is
  // nothing if it never crashed.
  lemma ReceiverAfterRun<U(!new)>(
    env: Env<U>, steps: seq<Step<U>>, shared: bool, inMemory: bool,
    applied: Option<LogId>, membership: EffectiveMembership)
    requires ValidEnv(env) && Lawful(env.codec) && NeverEmpty(env.codec)
    ensures var b := RunOf(env, steps, shared, inMemory).builder;
      b.Captured? ==>
        var received := Install(env.codec, b.meta, env.codec.serialize(b.image));
        var from := NextIndex(b.meta.lastLogId);
        && received.Ok? && from <= |env.log| && b.held <= |env.log| && from <= b.held + 1
        && EndsWith(env.sql, env.log[from..], Sm(received.value, applied, membership),
                    Replay(env.sql, Kept(env.log, b.missing, b.held) + env.log[from..], Start(env)),
                    IdAt(env, |env.log|))
        && (Crash !in steps ==> b.missing == {})
        && (b.missing == {} ==> Kept(env.log, b.missing, b.held) == env.log[..b.held])
  {
    var b := RunOf(env, steps, shared, inMemory).builder;
    SnapshotDuringApply(env, steps, shared, inMemory);
    if Crash !in steps { NothingMissing(env, steps, Fresh(env, shared, inMemory)); }
    if b.Captured? {
      ReceiverOf(env, b, applied, membership);
      KeptAll(env.log, b.held);
    }
  }

  lemma ReceiverOf<U(!new)>(env: Env<U>, b: Builder<U>, applied: Option<LogId>, membership: EffectiveMembership)
    requires Lawful(env.codec) && NeverEmpty(env.codec) && b.Captured? && Load(b.image).Ok?
    requires var p := NextIndex(Load(b.image).value.applied);
      && NextIndex(b.meta.lastLogId) <= p <= |env.log| && b.held <= p
      && Load(b.image).value.applied == IdAt(env, p)
    requires ReplayWithout(env, b.missing, b.held) == Some(View(Load(b.image).value))
    ensures var received := Install(env.codec, b.meta, env.codec.serialize(b.image));
      var from := NextIndex(b.meta.lastLogId);
      && received.Ok?
      && EndsWith(env.sql, env.log[from..], Sm(received.value, applied, membership),
                  Replay(env.sql, Kept(env.log, b.missing, b.held) + env.log[from..], Start(env)),
                  IdAt(env, |env.log|))
  {
    hide EndsWith, Load, FetchMeta, ReplayWithout, IdAt, Lawful, NeverEmpty, Install, Replay, Kept;
    InstallDelivers(env.codec, b.meta, b.image);
    var received := Install(env.codec, b.meta, env.codec.serialize(b.image)).value;
    var from := NextIndex(b.meta.lastLogId);
    ReceiverReplays(env, Sm(received, applied, membership), Load(received).value, b.missing, b.held, from);
    LastOfTail(env, from, NextIndex(Load(b.image).value.applied));
  }

  // ---- A build with no apply in flight ----

  // `n` entries are settled and memory names `applied`, and everything the builder has read so far
  // says so.
  ghost predicate Quiet<U>(env: Env<U>, n: nat, applied: Option<LogId>, r: Replica<U>) {
    && Inv(env, r) && r.next == n && r.done == 0 && r.applied == applied
    && Names(r.builder, n, applied) && MarkedAt(env, r.builder, n)
    && (r.builder.Captured? ==> r.builder.missing == r.lost)
  }

  ghost predicate MarkedAt<U>(env: Env<U>, b: Builder<U>, n: nat) {
    b.Captured? ==> n <= |env.log| && Load(b.image).Ok? && Load(b.image).value.applied == IdAt(env, n)
  }

  ghost predicate Names<U>(b: Builder<U>, n: nat, applied: Option<LogId>) {
    match b
    case Idle => true
    case SawApplied(a) => a == applied
    case SawMarkers(a, _, _) => a == applied
    case NoCounter(a, _, _) => a == applied
    case Titled(meta, _) => meta.lastLogId == applied
    case Described(meta, _, _) => meta.lastLogId == applied
    case Captured(meta, _, _, held, _, _, _) => meta.lastLogId == applied && held == n
  }

  lemma BuildPosition<U>(env: Env<U>, r: Replica<U>)
    ensures var r' := BuildStep(env, r);
      r'.next == r.next && r'.done == r.done && r'.applied == r.applied
  {
    hide Exec, Data, WithData, Bumped, BumpedValue, MetaFor, Overwrite, Settled, WithMeta;
  }

  lemma BuildNames<U>(env: Env<U>, r: Replica<U>)
    requires r.done == 0 && Names(r.builder, r.next, r.applied)
    ensures Names(BuildStep(env, r).builder, r.next, r.applied)
  {
    if r.builder.SawMarkers? || r.builder.NoCounter? {
      CountingShape(env, r, BuildStep(env, r).store.logDb, BuildStep(env, r).builder);
      hide BuildStep;
    } else {
      hide Exec, Data, WithData, Bumped, BumpedValue, MetaFor, Overwrite, WithMeta;
    }
  }

  lemma BuildMarks<U>(env: Env<U>, r: Replica<U>)
    requires Inv(env, r) && r.done == 0
    ensures MarkedAt(env, BuildStep(env, r).builder, r.next)
  {
    DataAtRest(env, r);
    BuildMissing(env, r);
    hide Inv, Exec, WithData, Bumped, BumpedValue, MetaFor, Overwrite, WithMeta, Load, IdAt, Settled;
  }

  lemma OtherPosition<U>(env: Env<U>, step: Step<U>, r: Replica<U>)
    requires step.WriteLog? || step.SaveVote? || step.Record?
    ensures var r' := Next(env, step, r);
      && r'.next == r.next && r'.done == r.done && r'.applied == r.applied && r'.lost == r.lost
      && (r'.builder == r.builder || r'.builder == Unmine(r.builder))
  {
    hide Exec, Data, WithData, WithMeta, Unmine;
  }

  lemma QuietStep<U>(env: Env<U>, n: nat, applied: Option<LogId>, step: Step<U>, r: Replica<U>)
    requires ValidEnv(env) && Quiet(env, n, applied, r) && !step.Apply? && !step.Crash? && !step.Receive?
    ensures Quiet(env, n, applied, Next(env, step, r)) && Next(env, step, r).lost == r.lost
  {
    hide Inv, BuildStep, WriteLogStep, SaveVoteStep, RecordStep;
    StepKeepsInv(env, step, r);
    if step.Build? {
      BuildPosition(env, r);
      BuildNames(env, r);
      BuildMarks(env, r);
      BuildMissing(env, r);
      BuildKeepsHistory(env, r);
      hide Names, MarkedAt;
    } else {
      OtherPosition(env, step, r);
    }
  }

  lemma {:induction false} QuietRun<U>(env: Env<U>, n: nat, applied: Option<LogId>, steps: seq<Step<U>>, r: Replica<U>)
    requires ValidEnv(env) && Quiet(env, n, applied, r)
    requires forall i :: 0 <= i < |steps| ==> !steps[i].Apply? && !steps[i].Crash? && !steps[i].Receive?
    ensures Quiet(env, n, applied, RunSteps(env, steps, r)) && RunSteps(env, steps, r).lost == r.lost
    decreases |steps|
  {
    hide Quiet, Next;
    if steps != [] {
      QuietStep(env, n, applied, steps[0], r);
      QuietRun(env, n, applied, steps[1..], Next(env, steps[0], r));
    }
  }

  lemma QuietStart<U>(env: Env<U>, r: Replica<U>)
    requires Inv(env, r) && r.done == 0 && r.builder.Idle?
    ensures Quiet(env, r.next, r.applied, r)
  {
    hide Inv;
  }

  lemma QuietEnd<U>(env: Env<U>, n: nat, applied: Option<LogId>, r: Replica<U>)
    requires Quiet(env, n, applied, r)
    ensures Inv(env, r) && r.next == n && r.done == 0
    ensures r.builder.Captured? ==>
      r.builder.held == n && r.builder.meta.lastLogId == applied && r.builder.missing == r.lost
    ensures MarkedAt(env, r.builder, n)
  {
    hide Inv;
  }

  // A store that is applying nothing builds a snapshot, while log writes, votes and the end of an
  // install may interleave, after any run whatever. The image holds every entry applied but for the
  // lost ones, and the metadata names the marker in memory: the two meet exactly if memory is in step
  // with the data.
  lemma QuietBuildExact<U>(env: Env<U>, before: seq<Step<U>>, steps: seq<Step<U>>, shared: bool, inMemory: bool)
    requires ValidEnv(env)
    requires forall i :: 0 <= i < |steps| ==> !steps[i].Apply? && !steps[i].Crash? && !steps[i].Receive?
    ensures var r := RunOf(env, before, shared, inMemory);
      var b := RunSteps(env, steps, r).builder;
      r.done == 0 && r.builder.Idle? && b.Captured? ==>
        && b.held == r.next && b.missing == r.lost && b.meta.lastLogId == r.applied
        && (b.held == NextIndex(b.meta.lastLogId) <==> AppliedInSync(Memory(r)))
  {
    var r := RunOf(env, before, shared, inMemory);
    ReachableInv(env, before, shared, inMemory);
    if r.done == 0 && r.builder.Idle? {
      hide *;
      MemoryMarker(env, r);
      QuietStart(env, r);
      QuietRun(env, r.next, r.applied, steps, r);
      QuietEnd(env, r.next, r.applied, RunSteps(env, steps, r));
    }
  }

  // A store at rest that has applied no more than such a snapshot covers can receive it, as the
  // install step asks, exactly if what the builder had lost makes no difference to its data.
  lemma QuietBuildReceivable<U>(
    env: Env<U>, before: seq<Step<U>>, steps: seq<Step<U>>, shared: bool, inMemory: bool, receiver: Replica<U>)
    requires ValidEnv(env)
    requires forall i :: 0 <= i < |steps| ==> !steps[i].Apply? && !steps[i].Crash? && !steps[i].Receive?
    requires receiver.installing.None? && receiver.done == 0 && !receiver.halted
    ensures var r := RunOf(env, before, shared, inMemory);
      var b := RunSteps(env, steps, r).builder;
      r.done == 0 && r.builder.Idle? && AppliedInSync(Memory(r)) && b.Captured? && receiver.next <= r.next ==>
        && r.next <= |env.log|
        && (CanReceive(env, receiver, b.meta, b.image)
            <==> ReplayWithout(env, {}, r.next) == ReplayWithout(env, r.lost, r.next))
  {
    var r := RunOf(env, before, shared, inMemory);
    var a := RunOf(env, before + steps, shared, inMemory);
    ReachableInv(env, before, shared, inMemory);
    RunTogether(env, before, steps, Fresh(env, shared, inMemory));
    SnapshotDuringApply(env, before + steps, shared, inMemory);
    assert a == RunSteps(env, steps, r);
    if r.done == 0 && r.builder.Idle? && AppliedInSync(Memory(r)) && a.builder.Captured? && receiver.next <= r.next {
      hide RunOf, RunSteps, Inv, Load, FetchMeta, ReplayWithout, IdAt, AppliedInSync, Quiet;
      MemoryMarker(env, r);
      QuietStart(env, r);
      QuietRun(env, r.next, r.applied, steps, r);
      QuietEnd(env, r.next, r.applied, a);
    }
  }

  lemma MemoryMarker<U>(env: Env<U>, r: Replica<U>)
    requires ValidEnv(env) && Inv(env, r) && r.done == 0
    ensures AppliedInSync(Memory(r)) <==> r.next == NextIndex(r.applied)
  {
    AppliedIsFit(env, r);
    assert NextIndex(IdAt(env, r.next)) == r.next;
    hide BuilderInv, FileInv, HistoryInv, ReplayWithout;
  }

  // ---- Snapshot plus suffix is full replay ----

  // A store with memory in step builds while no entry is being applied, after any run whatever. Any
  // other store installs the snapshot over whatever it held and goes on from the metadata's log id;
  // the builder goes on too. Both succeed exactly when the log without what the builder has lost
  // replays from an empty database, and then both databases hold that replay, with the same persisted
  // markers, whatever the receiver's memory showed. With nothing lost it is the full replay.
  lemma SnapshotPlusSuffix<U(!new)>(
    env: Env<U>, before: seq<Step<U>>, steps: seq<Step<U>>, shared: bool, inMemory: bool,
    applied: Option<LogId>, membership: EffectiveMembership)
    requires ValidEnv(env) && Lawful(env.codec) && NeverEmpty(env.codec)
    requires forall i :: 0 <= i < |steps| ==> !steps[i].Apply? && !steps[i].Crash? && !steps[i].Receive?
    ensures var r := RunOf(env, before, shared, inMemory);
      var a := RunOf(env, before + steps, shared, inMemory);
      r.done == 0 && r.builder.Idle? && AppliedInSync(Memory(r)) && a.builder.Captured? ==>
        var received := Install(env.codec, a.builder.meta, env.codec.serialize(a.builder.image));
        && received.Ok?
        && NextIndex(a.builder.meta.lastLogId) == r.next <= |env.log|
        && var suffix := env.log[r.next..];
           var full := Replay(env.sql, Kept(env.log, r.lost, r.next) + suffix, Start(env));
           && EndsWith(env.sql, suffix, Sm(received.value, applied, membership), full, IdAt(env, |env.log|))
           && EndsWith(env.sql, suffix, Memory(a), full, IdAt(env, |env.log|))
           && (r.lost == {} ==> Kept(env.log, r.lost, r.next) + suffix == env.log)
  {
    var r := RunOf(env, before, shared, inMemory);
    hide *;
    RunOfTogether(env, before, steps, shared, inMemory);
    if r.done == 0 && r.builder.Idle? && AppliedInSync(Memory(r)) && RunSteps(env, steps, r).builder.Captured? {
      QuietBuildExact(env, before, steps, shared, inMemory);
      ReceiverAfterRun(env, before + steps, shared, inMemory, applied, membership);
      ReachableInv(env, before, shared, inMemory);
      BuilderGoesOn(env, r, steps);
      KeptAll(env.log, r.next);
      assert env.log[..r.next] + env.log[r.next..] == env.log;
    }
  }

  lemma RunOfTogether<U>(env: Env<U>, before: seq<Step<U>>, steps: seq<Step<U>>, shared: bool, inMemory: bool)
    ensures RunOf(env, before + steps, shared, inMemory) == RunSteps(env, steps, RunOf(env, before, shared, inMemory))
  {
    RunTogether(env, before, steps, Fresh(env, shared, inMemory));
  }

  // The builder's own data, at rest and after a quiet run.
  lemma BuilderGoesOn<U>(env: Env<U>, r: Replica<U>, steps: seq<Step<U>>)
    requires ValidEnv(env) && Inv(env, r) && r.done == 0 && r.builder.Idle?
    requires forall i :: 0 <= i < |steps| ==> !steps[i].Apply? && !steps[i].Crash? && !steps[i].Receive?
    ensures r.next <= |env.log|
    ensures EndsWith(env.sql, env.log[r.next..], Memory(RunSteps(env, steps, r)),
                     Replay(env.sql, Kept(env.log, r.lost, r.next) + env.log[r.next..], Start(env)),
                     IdAt(env, |env.log|))
  {
    hide *;
    QuietStart(env, r);
    QuietRun(env, r.next, r.applied, steps, r);
    QuietEnd(env, r.next, r.applied, RunSteps(env, steps, r));
    GoesOnAtRest(env, RunSteps(env, steps, r));
  }

  lemma GoesOnAtRest<U>(env: Env<U>, r: Replica<U>)
    requires Inv(env, r) && r.done == 0
    ensures r.next <= |env.log|
    ensures EndsWith(env.sql, env.log[r.next..], Memory(r),
                     Replay(env.sql, Kept(env.log, r.lost, r.next) + env.log[r.next..], Start(env)),
                     IdAt(env, |env.log|))
  {
    hide Inv, EndsWith, Load, ReplayWithout, IdAt, Replay, Data, Kept;
    DataAtRest(env, r);
    ReceiverReplays(env, Memory(r), Load(Data(r.store)).value, r.lost, r.next, r.next);
    LastOfTail(env, r.next, r.next);
  }

  lemma DataAtRest<U>(env: Env<U>, r: Replica<U>)
    requires Inv(env, r) && r.done == 0
    ensures r.next <= |env.log|
    ensures Load(Data(r.store)).Ok? && Load(Data(r.store)).value.applied == IdAt(env, r.next)
    ensures ReplayWithout(env, r.lost, r.next) == Some(View(Load(Data(r.store)).value))
  {
    hide MemoryInv, BuilderInv, HistoryInv, FileInv;
  }
}
