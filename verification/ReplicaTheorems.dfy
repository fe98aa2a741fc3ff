// What the invariant means for every run of a store: what the data holds, what memory shows, and
// what a build captures.
module ReplicaTheorems {
  import opened RaftTypes
  import opened Sqlite
  import opened StateMachine
  import opened Replica
  import opened ReplicaInvariant

  lemma FreshInv<U>(env: Env<U>, shared: bool, inMemory: bool)
    requires ValidEnv(env)
    ensures Inv(env, Fresh(env, shared, inMemory))
  {
  }

  lemma StepKeepsInv<U>(env: Env<U>, step: Step<U>, r: Replica<U>)
    requires ValidEnv(env) && Inv(env, r)
    ensures Inv(env, Next(env, step, r))
  {
    hide Inv;
    match step
    case Apply => ApplyKeepsInv(env, r);
    case Build => BuildKeepsInv(env, r);
    case WriteLog(stmt) => WriteLogKeepsInv(env, stmt, r);
    case SaveVote(v) => SaveVoteKeepsInv(env, v, r);
    case Receive(meta, image) => ReceiveKeepsInv(env, meta, image, r);
    case Record => RecordKeepsInv(env, r);
    case Crash => CrashKeepsInv(env, r);
  }

  lemma {:induction false} RunKeepsInv<U>(env: Env<U>, steps: seq<Step<U>>, r: Replica<U>)
    requires ValidEnv(env) && Inv(env, r)
    ensures Inv(env, RunSteps(env, steps, r))
    decreases |steps|
  {
    hide Inv, Next;
    if steps != [] {
      StepKeepsInv(env, steps[0], r);
      RunKeepsInv(env, steps[1..], Next(env, steps[0], r));
    }
  }

  lemma FirstStep<U>(env: Env<U>, step: Step<U>, steps: seq<Step<U>>, r: Replica<U>)
    ensures RunSteps(env, [step] + steps, r) == RunSteps(env, steps, Next(env, step, r))
    ensures step.Receive? ==> Next(env, step, r) == ReceiveStep(env, step.meta, step.image, r)
  {
    assert ([step] + steps)[1..] == steps;
  }

  lemma {:induction false} RunTogether<U>(env: Env<U>, a: seq<Step<U>>, b: seq<Step<U>>, r: Replica<U>)
    ensures RunSteps(env, a + b, r) == RunSteps(env, b, RunSteps(env, a, r))
    decreases |a|
  {
    hide Next;
    if a == [] {
      assert a + b == b;
    } else {
      assert (a + b)[1..] == a[1..] + b;
      RunTogether(env, a[1..], b, Next(env, a[0], r));
    }
  }

  // The state after any run of a store opened on empty files.
  ghost function RunOf<U>(env: Env<U>, steps: seq<Step<U>>, shared: bool, inMemory: bool): Replica<U> {
    RunSteps(env, steps, Fresh(env, shared, inMemory))
  }

  lemma ReachableInv<U>(env: Env<U>, steps: seq<Step<U>>, shared: bool, inMemory: bool)
    requires ValidEnv(env)
    ensures Inv(env, RunOf(env, steps, shared, inMemory))
  {
    FreshInv(env, shared, inMemory);
    RunKeepsInv(env, steps, Fresh(env, shared, inMemory));
  }

  // ---- At most once, in order ----

  // Over every run, with crashes and installs anywhere: the data holds the SQL of each entry at
  // most once and in index order; it holds exactly the SQL entries below the position, except
  // those in `lost`, of which there is at most one per crash; and the user tables and the
  // membership are the replay of the prefix without them. An install starts this over from the
  // image, a crash that takes in-memory data with it from an empty database.
  lemma AtMostOnce<U>(env: Env<U>, steps: seq<Step<U>>, shared: bool, inMemory: bool)
    requires ValidEnv(env)
    ensures var r := RunOf(env, steps, shared, inMemory);
      && (forall i, j :: 0 <= i < j < |r.ran| ==> r.ran[i] < r.ran[j])
      && (forall i: nat :: i in r.ran <==>
            i < r.next && i < |env.log| && env.log[i].payload.Normal? && i !in r.lost)
      && (forall i :: i in r.lost ==> i < r.next)
      && |r.lost| <= r.crashes
      && Settled(r) <= |env.log|
      && LoadMembership(Data(r.store)).Ok?
      && ReplayWithout(env, r.lost, Settled(r))
         == Some(Model(Data(r.store).user, LoadMembership(Data(r.store)).value))
  {
    ReachableInv(env, steps, shared, inMemory);
    hide RunOf, MemoryInv, BuilderInv, FileInv, SavedInv, ReplayWithout, LoadMembership, Data;
  }

  lemma {:induction false} ReplayAppend<U>(sql: Sql<U>, a: seq<Entry>, b: seq<Entry>, m: Model<U>)
    ensures Replay(sql, a + b, m)
      == if Replay(sql, a, m).Some? then Replay(sql, b, Replay(sql, a, m).value) else None
    decreases |a|
  {
    if a == [] {
      assert a + b == b;
    } else {
      assert (a + b)[1..] == a[1..] + b;
      if Effect(sql, a[0], m).Some? { ReplayAppend(sql, a[1..], b, Effect(sql, a[0], m).value); }
    }
  }

  // With nothing lost, the reference is the plain replay of the prefix.
  lemma {:induction false} ReplayNoneLost<U>(env: Env<U>, n: nat)
    requires n <= |env.log|
    ensures ReplayWithout(env, {}, n)
      == Replay(env.sql, env.log[..n], Model(env.empty, DEFAULT_MEMBERSHIP))
  {
    if n > 0 {
      ReplayNoneLost(env, n - 1);
      assert env.log[..n] == env.log[..n - 1] + [env.log[n - 1]];
      ReplayAppend(env.sql, env.log[..n - 1], [env.log[n - 1]], Model(env.empty, DEFAULT_MEMBERSHIP));
      assert [env.log[n - 1]][1..] == [];
    }
  }

  // Nothing but a crash loses an entry.
  lemma OnlyCrashLoses<U>(env: Env<U>, step: Step<U>, r: Replica<U>)
    requires step != Crash
    ensures Next(env, step, r).lost == r.lost || Next(env, step, r).lost == {}
    ensures !step.Receive? ==> Next(env, step, r).lost == r.lost && Next(env, step, r).onDisk == r.onDisk
  {
    BuildKeepsHistory(env, r);
    hide BuildStep, Do, EntryActions, Exec, Data, WithData, LosesData, CanReceive, SqlBelow, Unmine;
  }

  lemma BuildKeepsHistory<U>(env: Env<U>, r: Replica<U>)
    ensures var r' := BuildStep(env, r);
      r'.lost == r.lost && r'.onDisk == r.onDisk && r'.since == r.since
  {
    hide Exec, Data, WithData, WithMeta, Bumped, BumpedValue, MetaFor, Overwrite, Settled;
  }

  lemma {:induction false} NoCrashNoLoss<U>(env: Env<U>, steps: seq<Step<U>>, r: Replica<U>)
    requires Crash !in steps && r.lost == {}
    ensures RunSteps(env, steps, r).lost == {}
    decreases |steps|
  {
    hide Next;
    if steps != [] {
      assert steps[0] in steps;
      OnlyCrashLoses(env, steps[0], r);
      NoCrashNoLoss(env, steps[1..], Next(env, steps[0], r));
    }
  }

  // A run without crashes, installs included, holds the replay of a prefix of the log, and the
  // membership in force is that of the prefix's last membership entry.
  lemma WithoutCrashes<U>(env: Env<U>, steps: seq<Step<U>>, shared: bool, inMemory: bool)
    requires ValidEnv(env) && Crash !in steps
    ensures var r := RunOf(env, steps, shared, inMemory);
      && Settled(r) <= |env.log|
      && LoadMembership(Data(r.store)).Ok?
      && var m := LoadMembership(Data(r.store)).value;
         && Replay(env.sql, env.log[..Settled(r)], Model(env.empty, DEFAULT_MEMBERSHIP))
            == Some(Model(Data(r.store).user, m))
         && IsLatestMembership(env.log[..Settled(r)], DEFAULT_MEMBERSHIP, m)
  {
    var r := RunOf(env, steps, shared, inMemory);
    AtMostOnce(env, steps, shared, inMemory);
    NoCrashNoLoss(env, steps, Fresh(env, shared, inMemory));
    ReplayNoneLost(env, Settled(r));
    MembershipIsLatest(env.sql, env.log[..Settled(r)], Model(env.empty, DEFAULT_MEMBERSHIP));
  }

  // ---- Memory and disk ----

  function Memory<U>(r: Replica<U>): Sm<U> {
    Sm(Data(r.store), r.applied, r.membership)
  }

  // Entries without a membership leave the membership alone.
  lemma {:induction false} UnchangedKept<U>(env: Env<U>, lost: set<nat>, first: nat, n: nat)
    requires first <= n <= |env.log| && !ChangedIn(env.log, first, n) && ReplayWithout(env, lost, n).Some?
    ensures ReplayWithout(env, lost, first).Some?
    ensures ReplayWithout(env, lost, n).value.membership == ReplayWithout(env, lost, first).value.membership
    decreases n
  {
    if first < n {
      assert !ChangedIn(env.log, first, n - 1);
      UnchangedKept(env, lost, first, n - 1);
    }
  }

  lemma MemoryIsCurrent<U>(env: Env<U>, r: Replica<U>)
    requires PositionInv(env, r) && MemoryInv(env, r) && !r.since.installed
    ensures r.applied == IdAt(env, Remembered(r))
    ensures ReplayWithout(env, r.lost, r.next).Some?
    ensures r.membership == ReplayWithout(env, r.lost, r.next).value.membership
  {
    if !ChangedIn(env.log, r.since.base, r.next) { UnchangedKept(env, r.lost, r.since.base, r.next); }
    hide ReplayWithout, ChangedIn, EntryActions;
  }

  // Without an install since the last open, memory never leads disk and lags by at most the one
  // write in progress, so what a reopen loads is at or above what memory showed.
  lemma MarkersAgree<U>(env: Env<U>, steps: seq<Step<U>>, shared: bool, inMemory: bool)
    requires ValidEnv(env)
    ensures var r := RunOf(env, steps, shared, inMemory);
      && Load(Data(r.store)).Ok?
      && var disk := Load(Data(r.store)).value;
         !r.since.installed ==>
         && (if r.done == 1 then NextIndex(disk.applied) == NextIndex(r.applied) + 1 && r.next < |env.log|
                                 && disk.applied == Some(env.log[r.next].logId)
             else disk.applied == r.applied)
         && (if r.done == 3 then r.next < |env.log| && disk.membership.logId == Some(env.log[r.next].logId)
             else disk.membership == r.membership)
  {
    var r := RunOf(env, steps, shared, inMemory);
    ReachableInv(env, steps, shared, inMemory);
    MarkersAgreeAt(env, r);
  }

  lemma MarkersAgreeAt<U>(env: Env<U>, r: Replica<U>)
    requires ValidEnv(env) && Inv(env, r)
    ensures Load(Data(r.store)).Ok?
    ensures !r.since.installed ==>
      var disk := Load(Data(r.store)).value;
      && (if r.done == 1 then NextIndex(disk.applied) == NextIndex(r.applied) + 1 && r.next < |env.log|
                              && disk.applied == Some(env.log[r.next].logId)
          else disk.applied == r.applied)
      && (if r.done == 3 then r.next < |env.log| && disk.membership.logId == Some(env.log[r.next].logId)
          else disk.membership == r.membership)
  {
    if !r.since.installed { MemoryIsCurrent(env, r); }
    hide FetchLogId, FetchMeta, LoadMembership, Data, BuilderInv, FileInv, HistoryInv, MemoryInv;
  }

  // With any installs behind, and except for the write in progress, memory agrees with disk exactly
  // if an entry was applied since memory was last out of step, or it agreed then; for the membership,
  // exactly if a membership entry was. An entry whose SQL was rejected counts as applied.
  lemma MemoryShows<U>(env: Env<U>, r: Replica<U>)
    requires ValidEnv(env) && Inv(env, r)
    ensures r.since.base <= r.next <= |env.log| && ReplayWithout(env, r.lost, r.since.base).Some?
    ensures AppliedInSync(Memory(r))
      <==> r.done >= 2 || (r.done == 0 && (r.next > r.since.base || r.since.applied == IdAt(env, r.since.base)))
    ensures r.done <= 2 ==>
      (MembershipInSync(Memory(r))
       <==> ChangedIn(env.log, r.since.base, r.next)
            || r.since.membership == ReplayWithout(env, r.lost, r.since.base).value.membership)
  {
    if !ChangedIn(env.log, r.since.base, r.next) { UnchangedKept(env, r.lost, r.since.base, r.next); }
    hide BuilderInv, FileInv, HistoryInv, ChangedIn, ReplayWithout, FetchLogId, LoadMembership, Data, EntryActions;
  }

  lemma {:induction false} SinceKept<U>(env: Env<U>, steps: seq<Step<U>>, r: Replica<U>)
    requires forall i :: 0 <= i < |steps| ==> !steps[i].Crash? && !steps[i].Receive?
    ensures RunSteps(env, steps, r).since == r.since && RunSteps(env, steps, r).lost == r.lost
    decreases |steps|
  {
    if steps != [] {
      SinceKeptStep(env, steps[0], r);
      hide Next;
      SinceKept(env, steps[1..], Next(env, steps[0], r));
    }
  }

  lemma SinceKeptStep<U>(env: Env<U>, step: Step<U>, r: Replica<U>)
    requires !step.Crash? && !step.Receive?
    ensures Next(env, step, r).since == r.since && Next(env, step, r).lost == r.lost
  {
    BuildKeepsHistory(env, r);
    hide BuildStep, Do, EntryActions, Exec, Data, WithData, Unmine;
  }

  lemma ReceivedSince<U>(env: Env<U>, r: Replica<U>, meta: SnapshotMeta, image: Db<U>)
    requires CanReceive(env, r, meta, image)
    ensures var r', p := ReceiveStep(env, meta, image, r), NextIndex(meta.lastLogId);
      && r'.since == Since(p, r.applied, r.membership, true) && r'.lost == {}
      && p <= |env.log| && meta.lastLogId == IdAt(env, p)
      && ReplayWithout(env, {}, p).Some?
      && ReplayWithout(env, {}, p).value.membership == Load(image).value.membership
  {
    hide ReplayWithout, Load, Data, WithData, LosesData, SqlBelow, IdAt;
  }

  // An install leaves memory as it was. Whatever happens next short of a crash or another install:
  // the marker in memory is right exactly if an entry was applied since the install (or has got as
  // far as memory, or was rejected), or it had named the image's last entry before it; never while a
  // marker is written and not yet remembered. The membership in memory is right exactly if a
  // membership entry was applied since, or it had been the image's, one in progress left aside.
  lemma AgreementAfterInstall<U>(
    env: Env<U>, r: Replica<U>, meta: SnapshotMeta, image: Db<U>, steps: seq<Step<U>>)
    requires ValidEnv(env) && Inv(env, r) && CanReceive(env, r, meta, image)
    requires forall i :: 0 <= i < |steps| ==> !steps[i].Crash? && !steps[i].Receive?
    ensures var p := NextIndex(meta.lastLogId);
      var r' := RunSteps(env, [Receive(meta, image)] + steps, r);
      && p <= r'.next <= |env.log|
      && (r'.halted ==> r'.done == 2)
      && (AppliedInSync(Memory(r'))
          <==> r'.done >= 2 || (r'.done == 0 && (r'.next > p || r.applied == meta.lastLogId)))
      && (r'.done <= 2 ==>
            (MembershipInSync(Memory(r'))
             <==> ChangedIn(env.log, p, r'.next) || r.membership == Load(image).value.membership))
  {
    hide *;
    var r1 := ReceiveStep(env, meta, image, r);
    FirstStep(env, Receive(meta, image), steps, r);
    ReceiveKeepsInv(env, meta, image, r);
    ReceivedSince(env, r, meta, image);
    RunKeepsInv(env, steps, r1);
    SinceKept(env, steps, r1);
    MemoryShows(env, RunSteps(env, steps, r1));
    HaltedAt(env, RunSteps(env, steps, r1));
  }

  lemma HaltedAt<U>(env: Env<U>, r: Replica<U>)
    requires Inv(env, r)
    ensures r.halted ==> r.done == 2
  {
    hide DiskInv, MemoryInv, HistoryInv, BuilderInv, FileInv;
  }

  // ---- A snapshot built while entries are applied ----

  // For every interleaving, with crashes and installs before or around the build: the metadata's
  // log id is the id of an entry at or below the marker inside the image, and the image holds the
  // replay through that marker or through the entry just before it, never anything else. The
  // metadata's membership is what memory showed when no less than the metadata's entries, but for
  // the last, were settled: the one in force then, unless an install had left memory behind. The
  // image contains its own metadata, unless an install came between.
  lemma SnapshotDuringApply<U>(env: Env<U>, steps: seq<Step<U>>, shared: bool, inMemory: bool)
    requires ValidEnv(env)
    ensures var b := RunOf(env, steps, shared, inMemory).builder;
      b.Captured? ==>
        && FetchMeta(b.image).Ok? && (b.own ==> FetchMeta(b.image).value == Some(b.meta))
        && Load(b.image).Ok?
        && var sm := Load(b.image).value;
           var p := NextIndex(sm.applied);
           && NextIndex(b.meta.lastLogId) <= p <= |env.log|
           && b.meta.lastLogId == IdAt(env, NextIndex(b.meta.lastLogId))
           && sm.applied == IdAt(env, p)
           && b.held <= p <= b.held + 1
           && ReplayWithout(env, b.missing, b.held) == Some(View(sm))
           && NextIndex(b.meta.lastLogId) - 1 <= b.seen.at <= |env.log|
           && ReplayWithout(env, b.seen.missing, b.seen.at).Some?
           && (!b.seen.since.installed || ChangedIn(env.log, b.seen.since.base, b.seen.at) ==>
                 b.meta.lastMembership == ReplayWithout(env, b.seen.missing, b.seen.at).value.membership)
  {
    var b := RunOf(env, steps, shared, inMemory).builder;
    ReachableInv(env, steps, shared, inMemory);
    if b.Captured? && !b.seen.since.installed && !ChangedIn(env.log, b.seen.since.base, b.seen.at) {
      UnchangedKept(env, b.seen.missing, b.seen.since.base, b.seen.at);
    }
    hide RunOf, FetchLogId, FetchMeta, LoadMembership, ReplayWithout, EntryActions, ChangedIn,
         DiskInv, MemoryInv, HistoryInv, FileInv;
  }

  // Serializing inside the gap of an entry is the only way to miss its effect, and it does miss
  // it unless the effect changes nothing.
  lemma CaptureExact<U>(env: Env<U>, r: Replica<U>)
    requires ValidEnv(env) && Inv(env, r) && r.builder.Described?
    ensures var image := BuildStep(env, r).builder.image;
      && Load(image).Ok?
      && var p := NextIndex(Load(image).value.applied);
         && p <= |env.log|
         && (ReplayWithout(env, r.lost, p) == Some(View(Load(image).value))
             <==> !InGap(env, r)
                  || Effect(env.sql, env.log[r.next], View(Load(image).value)) == Some(View(Load(image).value)))
  {
    hide *;
    CapturedImage(env, r);
    DiskShows(env, r);
    if InGap(env, r) { GapEffect(env, r); }
  }

  lemma CapturedImage<U>(env: Env<U>, r: Replica<U>)
    requires r.builder.Described?
    ensures BuildStep(env, r).builder.Captured? && BuildStep(env, r).builder.image == Data(r.store)
  {
    hide Data, Settled;
  }

  lemma GapEffect<U>(env: Env<U>, r: Replica<U>)
    requires r.next < |env.log| && r.next !in r.lost && ReplayWithout(env, r.lost, r.next).Some?
    ensures ReplayWithout(env, r.lost, r.next + 1)
      == Effect(env.sql, env.log[r.next], ReplayWithout(env, r.lost, r.next).value)
  {
  }

  // In the gap of an entry the data holds everything before it, otherwise all that is marked.
  lemma DiskShows<U>(env: Env<U>, r: Replica<U>)
    requires ValidEnv(env) && Inv(env, r)
    ensures Load(Data(r.store)).Ok? && NextIndex(Load(Data(r.store)).value.applied) == Marked(r) <= |env.log|
    ensures !InGap(env, r) ==> ReplayWithout(env, r.lost, Marked(r)) == Some(View(Load(Data(r.store)).value))
    ensures InGap(env, r) ==>
      && Marked(r) == r.next + 1 <= |env.log| && r.next !in r.lost
      && ReplayWithout(env, r.lost, r.next) == Some(View(Load(Data(r.store)).value))
  {
    assert NextIndex(IdAt(env, Marked(r))) == Marked(r);
    assert r.next !in r.lost by { assert HistoryOf(env, r.next, r.lost, r.crashes, r.ran); }
    hide BuilderInv, FileInv, MemoryInv, HistoryInv, IdAt, Data, FetchLogId, LoadMembership;
  }
}
