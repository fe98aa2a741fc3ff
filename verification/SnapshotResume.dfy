// Where a receiver goes on, and when that leaves it with the full replay: the image holds the first
// `held` entries and the receiver applies those from `from` on.
module SnapshotResume {
  import opened RaftTypes
  import opened Sqlite
  import opened StateMachine
  import opened Replica
  import opened ReplicaInvariant
  import opened ReplicaTheorems
  import opened ReplicaLoss
  import opened SnapshotShipping
  import SnapshotIds

  // SQL that counts tells every resume point but the right one from it: the receiver agrees with
  // the full replay, for every SQL and every log, if and only if the image holds exactly the
  // entries up to the metadata's log id.
  lemma ResumeMustMatch(held: nat, from: nat)
    requires held <= U64_MAX && from <= U64_MAX
    ensures (forall env: Env<nat> | ValidEnv(env) && held <= |env.log| && from <= |env.log| ::
               ResumesRight(env, held, from))
      <==> held == from
  {
    if held != from {
      var env := CountingEnv(SqlEntries(if held < from then from else held));
      CountReplay(env.log[..held] + env.log[from..], Start(env));
      CountReplay(env.log, Start(env));
      assert !ResumesRight(env, held, from);
    } else {
      forall env: Env<nat> | ValidEnv(env) && held <= |env.log|
        ensures ResumesRight(env, held, held) {
        assert env.log[..held] + env.log[held..] == env.log;
      }
    }
  }

  ghost predicate ResumesRight<U>(env: Env<U>, held: nat, from: nat)
    requires held <= |env.log| && from <= |env.log|
  {
    Replay(env.sql, env.log[..held] + env.log[from..], Start(env)) == Replay(env.sql, env.log, Start(env))
  }

  function SqlEntries(n: nat): (r: seq<Entry>)
    requires n <= U64_MAX + 1
    ensures |r| == n
    ensures forall i :: 0 <= i < n ==> r[i].logId.index == i && r[i].payload.Normal?
  {
    seq(n, i requires 0 <= i < n => Entry(LogId(LeaderId(0, 0), i), Normal("", [])))
  }

  function CountingEnv(log: seq<Entry>): Env<nat> {
    Env(CountStatements, Codec((db: Db<nat>) => [], (bytes: seq<Byte>) => None), (id: LeaderId) => "", 0, log)
  }

  function SqlIn(entries: seq<Entry>): nat {
    if entries == [] then 0 else (if entries[0].payload.Normal? then 1 else 0) + SqlIn(entries[1..])
  }

  lemma {:induction false} CountReplay(entries: seq<Entry>, m: Model<nat>)
    ensures Replay(CountStatements, entries, m).Some?
    ensures Replay(CountStatements, entries, m).value.user == m.user + SqlIn(entries)
    ensures (forall i :: 0 <= i < |entries| ==> entries[i].payload.Normal?) ==>
      Replay(CountStatements, entries, m) == Some(m.(user := m.user + |entries|))
    decreases |entries|
  {
    if entries != [] { CountReplay(entries[1..], Effect(CountStatements, entries[0], m).value); }
  }

  // ---- For a given log ----

  // The entries between the two points hold no SQL, and if they are skipped, not the last membership.
  ghost predicate HarmlessGap(log: seq<Entry>, held: nat, from: nat)
    requires held <= |log| && from <= |log|
  {
    && (forall i :: held <= i < from ==> !log[i].payload.Normal? && !LastChange(log, |log|, i))
    && (forall i :: from <= i < held ==> !log[i].payload.Normal?)
  }

  function Between(held: nat, from: nat): (r: set<nat>)
    ensures forall i :: i in r <==> held <= i < from
  {
    if from <= held then {} else Between(held, from - 1) + {from - 1}
  }

  lemma {:induction false} KeptWithout(log: seq<Entry>, held: nat, from: nat, n: nat)
    requires held <= from <= n <= |log|
    ensures Kept(log, Between(held, from), n) == log[..held] + log[from..n]
    decreases n
  {
    var gap := Between(held, from);
    if from < n {
      KeptWithout(log, held, from, n - 1);
      assert log[from..n] == log[from..n - 1] + [log[n - 1]];
    } else {
      KeptBelow(log, held, from, n);
    }
  }

  lemma {:induction false} KeptBelow(log: seq<Entry>, held: nat, from: nat, n: nat)
    requires n <= from && held <= from && n <= |log| && held <= |log|
    ensures Kept(log, Between(held, from), n) == log[..if n < held then n else held]
    decreases n
  {
    if n > 0 { KeptBelow(log, held, from, n - 1); }
  }

  // Skipping is losing.
  lemma SkippedIsLost<U>(env: Env<U>, held: nat, from: nat)
    requires held <= from <= |env.log|
    ensures Replay(env.sql, env.log[..held] + env.log[from..], Start(env))
      == ReplayWithout(env, Between(held, from), |env.log|)
    ensures Replay(env.sql, env.log, Start(env)) == ReplayWithout(env, {}, |env.log|)
  {
    KeptWithout(env.log, held, from, |env.log|);
    assert env.log[from..|env.log|] == env.log[from..];
    ReplayKept(env, Between(held, from), |env.log|);
    ReplayNoneLost(env, |env.log|);
    assert env.log[..|env.log|] == env.log;
  }

  // What membership entries leave behind, whatever was before, if there are any.
  function LastIn(entries: seq<Entry>, before: EffectiveMembership): EffectiveMembership {
    if entries == [] then before
    else LastIn(entries[1..],
                if entries[0].payload.MembershipChange?
                then EffectiveMembership(Some(entries[0].logId), entries[0].payload.membership) else before)
  }

  lemma {:induction false} LastInTwice(entries: seq<Entry>, a: EffectiveMembership, b: EffectiveMembership)
    ensures LastIn(entries, a) == LastIn(entries, b) || (LastIn(entries, a) == a && LastIn(entries, b) == b)
    decreases |entries|
  {
    if entries != [] {
      var e := entries[0];
      var a' := if e.payload.MembershipChange? then EffectiveMembership(Some(e.logId), e.payload.membership) else a;
      var b' := if e.payload.MembershipChange? then EffectiveMembership(Some(e.logId), e.payload.membership) else b;
      LastInTwice(entries[1..], a', b');
    }
  }

  lemma {:induction false} NoSqlReplay<U>(sql: Sql<U>, entries: seq<Entry>, m: Model<U>)
    requires forall i :: 0 <= i < |entries| ==> !entries[i].payload.Normal?
    ensures Replay(sql, entries, m) == Some(m.(membership := LastIn(entries, m.membership)))
    decreases |entries|
  {
    if entries != [] { NoSqlReplay(sql, entries[1..], Effect(sql, entries[0], m).value); }
  }

  // Applying entries without SQL a second time changes nothing.
  lemma RepeatedNoSql<U>(sql: Sql<U>, before: seq<Entry>, again: seq<Entry>, m: Model<U>)
    requires forall i :: 0 <= i < |again| ==> !again[i].payload.Normal?
    ensures Replay(sql, before + again + again, m) == Replay(sql, before + again, m)
  {
    hide Replay;
    ReplayAppend(sql, before, again, m);
    ReplayAppend(sql, before + again, again, m);
    if Replay(sql, before, m).Some? {
      var mid := Replay(sql, before, m).value;
      NoSqlReplay(sql, again, mid);
      var once := Replay(sql, again, mid).value;
      NoSqlReplay(sql, again, once);
      LastInTwice(again, mid.membership, once.membership);
    }
  }

  lemma RepeatedIsRight<U>(env: Env<U>, held: nat, from: nat)
    requires from <= held <= |env.log| && forall i :: from <= i < held ==> !env.log[i].payload.Normal?
    ensures ResumesRight(env, held, from)
  {
    var before, again, rest := env.log[..from], env.log[from..held], env.log[held..];
    assert env.log[..held] == before + again && env.log[from..] == again + rest;
    assert env.log == before + again + rest;
    assert env.log[..held] + env.log[from..] == before + again + again + rest;
    RepeatedNoSql(env.sql, before, again, Start(env));
    ReplayAppend(env.sql, before + again + again, rest, Start(env));
    ReplayAppend(env.sql, before + again, rest, Start(env));
  }

  // For every SQL, the receiver ends with the full replay of its log if the entries between the two
  // points make no difference.
  lemma HarmlessResume<U>(env: Env<U>, held: nat, from: nat)
    requires ValidEnv(env) && held <= |env.log| && from <= |env.log| && HarmlessGap(env.log, held, from)
    ensures ResumesRight(env, held, from)
  {
    if held <= from {
      var gap := Between(held, from);
      SkippedIsLost(env, held, from);
      UserWithout(env, gap, |env.log|);
      if ReplayWithout(env, gap, |env.log|).Some? { MembershipWithout(env, gap, |env.log|); }
    } else {
      RepeatedIsRight(env, held, from);
    }
  }

  lemma {:induction false} SqlInSum(a: seq<Entry>, b: seq<Entry>)
    ensures SqlIn(a + b) == SqlIn(a) + SqlIn(b)
    decreases |a|
  {
    if a == [] {
      assert a + b == b;
    } else {
      assert (a + b)[1..] == a[1..] + b;
      SqlInSum(a[1..], b);
    }
  }

  lemma {:induction false} SqlInNone(entries: seq<Entry>)
    ensures SqlIn(entries) == 0 <==> forall i :: 0 <= i < |entries| ==> !entries[i].payload.Normal?
    decreases |entries|
  {
    if entries != [] {
      SqlInNone(entries[1..]);
      if forall i :: 0 <= i < |entries| ==> !entries[i].payload.Normal? {
        assert forall i :: 0 <= i < |entries[1..]| ==> entries[1..][i] == entries[i + 1];
      } else if !entries[0].payload.Normal? {
        var i :| 0 <= i < |entries| && entries[i].payload.Normal?;
        assert entries[1..][i - 1] == entries[i];
      }
    }
  }

  // And only if: counting shows every other gap.
  lemma HarmlessResumeOnly(env: Env<nat>, held: nat, from: nat)
    requires ValidEnv(env) && env.sql == CountStatements && held <= |env.log| && from <= |env.log|
    ensures ResumesRight(env, held, from) <==> HarmlessGap(env.log, held, from)
  {
    hide HarmlessGap, ResumesRight;
    if HarmlessGap(env.log, held, from) {
      HarmlessResume(env, held, from);
    } else if held <= from {
      SkippedShows(env, held, from);
    } else {
      RepeatedShows(env, held, from);
    }
  }

  lemma RepeatedShows(env: Env<nat>, held: nat, from: nat)
    requires env.sql == CountStatements && from < held <= |env.log| && !HarmlessGap(env.log, held, from)
    ensures !ResumesRight(env, held, from)
  {
    hide Replay, SqlIn;
    CountReplay(env.log[..held] + env.log[from..], Start(env));
    CountReplay(env.log, Start(env));
    SqlInRepeated(env.log, held, from);
    SqlInNone(env.log[from..held]);
    var i :| from <= i < held && env.log[i].payload.Normal?;
    assert env.log[from..held][i - from] == env.log[i];
  }

  lemma SqlInRepeated(log: seq<Entry>, held: nat, from: nat)
    requires from <= held <= |log|
    ensures SqlIn(log[..held] + log[from..]) == SqlIn(log) + SqlIn(log[from..held])
  {
    hide SqlIn;
    SqlInSum(log[..held], log[from..]);
    SqlInSum(log[from..held], log[held..]);
    SqlInSum(log[..held], log[held..]);
    assert log[from..held] + log[held..] == log[from..];
    assert log[..held] + log[held..] == log;
  }

  lemma SkippedShows(env: Env<nat>, held: nat, from: nat)
    requires ValidEnv(env) && env.sql == CountStatements && held <= from <= |env.log|
    requires !HarmlessGap(env.log, held, from)
    ensures !ResumesRight(env, held, from)
  {
    var gap, n := Between(held, from), |env.log|;
    SkippedIsLost(env, held, from);
    CountWithout(env, gap, n);
    CountWithout(env, {}, n);
    CountLess(env.log, gap, n);
    MembershipWithout(env, gap, n);
    var i :| held <= i < from && (env.log[i].payload.Normal? || LastChange(env.log, n, i));
    assert i in gap;
  }

  // ---- The schedule that makes the two meet ----

  // The build stays under way: it neither ends nor dies.
  ghost predicate Busy<U>(env: Env<U>, steps: seq<Step<U>>, r: Replica<U>) {
    !r.builder.Idle? && (steps != [] ==> Busy(env, steps[1..], Next(env, steps[0], r)))
  }

  function NamedBy<U>(b: Builder<U>): Option<LogId> {
    match b
    case Idle => None
    case SawApplied(a) => a
    case SawMarkers(a, _, _) => a
    case NoCounter(a, _, _) => a
    case Titled(meta, _) => meta.lastLogId
    case Described(meta, _, _) => meta.lastLogId
    case Captured(meta, _, _, _, _, _, _) => meta.lastLogId
  }

  lemma NamedStep<U>(env: Env<U>, step: Step<U>, r: Replica<U>)
    requires !r.builder.Idle? && !Next(env, step, r).builder.Idle?
    ensures NamedBy(Next(env, step, r).builder) == NamedBy(r.builder)
  {
    if step.Build? { NamedBuild(env, r); }
    hide BuildStep, Do, EntryActions, Exec, Data, WithData, WithMeta, Found, Load, CanReceive, SqlBelow;
  }

  lemma NamedBuild<U>(env: Env<U>, r: Replica<U>)
    requires !r.builder.Idle? && !BuildStep(env, r).builder.Idle?
    ensures NamedBy(BuildStep(env, r).builder) == NamedBy(r.builder)
  {
    if r.builder.SawMarkers? || r.builder.NoCounter? {
      CountingShape(env, r, BuildStep(env, r).store.logDb, BuildStep(env, r).builder);
      hide BuildStep;
    } else {
      hide Exec, Data, WithData, WithMeta, Bumped, BumpedValue, MetaFor, Overwrite, Settled;
    }
  }

  lemma {:induction false} NamedRun<U>(env: Env<U>, steps: seq<Step<U>>, r: Replica<U>)
    requires Busy(env, steps, r)
    ensures NamedBy(RunSteps(env, steps, r).builder) == NamedBy(r.builder)
    decreases |steps|
  {
    hide Next, NamedBy;
    if steps != [] {
      NamedStep(env, steps[0], r);
      NamedRun(env, steps[1..], Next(env, steps[0], r));
    }
  }

  // For every build, whatever is interleaved from its first read to the capture, installs included:
  // the image and the metadata meet exactly if as many entries are settled at the capture as memory
  // named at the first read. Unless an install had left memory behind, these are the remembered ones.
  lemma MeetExactly<U>(env: Env<U>, r: Replica<U>, steps: seq<Step<U>>)
    requires ValidEnv(env) && Inv(env, r) && r.builder.Idle?
    requires Busy(env, steps, BuildStep(env, r))
    ensures var a := RunSteps(env, steps, BuildStep(env, r));
      a.builder.Described? ==>
        var b := BuildStep(env, a).builder;
        && b.Captured?
        && (b.held == NextIndex(b.meta.lastLogId) <==> Settled(a) == NextIndex(r.applied))
        && (!r.since.installed ==> NextIndex(r.applied) == Remembered(r))
  {
    var a := RunSteps(env, steps, BuildStep(env, r));
    assert NamedBy(BuildStep(env, r).builder) == r.applied;
    NamedRun(env, steps, BuildStep(env, r));
    if !r.since.installed { RememberedNamed(env, r); }
    hide RunSteps, Inv, Settled, Remembered, Data;
  }

  lemma RememberedNamed<U>(env: Env<U>, r: Replica<U>)
    requires ValidEnv(env) && Inv(env, r) && !r.since.installed
    ensures NextIndex(r.applied) == Remembered(r)
  {
    MemoryIsCurrent(env, r);
    hide DiskInv, MemoryInv, HistoryInv, BuilderInv, FileInv, EntryActions;
  }

  // ---- Both mismatches happen ----

  // The rest of a first build, from the reading of the markers on.
  lemma FinishFirst<U>(env: Env<U>, r: Replica<U>)
    requires r.builder.SawMarkers? && SnapshotIndexKey !in r.store.logDb.kv && !r.store.shared
    ensures var r' := BuildStep(env, BuildStep(env, BuildStep(env, BuildStep(env, r))));
      && r'.builder.Captured? && r'.builder.meta.lastLogId == r.builder.applied
      && r'.builder.held == Settled(r) && r'.builder.image.user == r.store.dataDb.user
  {
    hide SnapshotIds.SnapshotId, Overwrite;
    var r2 := BuildStep(env, BuildStep(env, r));
    assert r2.builder.Titled? && r2.builder.meta.lastLogId == r.builder.applied;
    assert r2.next == r.next && r2.done == r.done && r2.store.dataDb == r.store.dataDb && !r2.store.shared;
  }

  // Here the entry is applied between the reading of the marker and the capture: the image holds
  // it, the metadata does not name it, the receiver applies it again.
  lemma RaceApplyTwice(env: Env<nat>, applied: Option<LogId>, membership: EffectiveMembership)
    requires ValidEnv(env) && Lawful(env.codec) && NeverEmpty(env.codec) && env.sql == CountStatements
    requires |env.log| == 1 && env.log[0].payload.Normal? && env.empty == 0
    ensures var b := RunOf(env, [Build, Build, Apply, Apply, Apply, Build, Build, Build, Build], false, false).builder;
      && b.Captured? && b.meta.lastLogId == None && b.held == 1 && b.image.user == 1
      && EndsAt(env, b, Sm(Install(env.codec, b.meta, env.codec.serialize(b.image)).value, applied, membership), 2)
      && Replay(env.sql, env.log, Start(env)) == Some(Model(1, DEFAULT_MEMBERSHIP))
  {
    var steps: seq<Step<nat>> := [Build, Build, Apply, Apply, Apply, Build, Build, Build, Build];
    ApplyTwiceCapture(env);
    hide RunOf, Install, Load;
    ReceiverAfterRun(env, steps, false, false, applied, membership);
    CountReplay(env.log[..1] + env.log[0..], Start(env));
    CountReplay(env.log, Start(env));
  }

  // The receiver's user tables after the install and everything past the metadata's log id.
  ghost predicate EndsAt(env: Env<nat>, b: Builder<nat>, receiver: Sm<nat>, user: nat)
    requires b.Captured?
  {
    && NextIndex(b.meta.lastLogId) <= |env.log|
    && var run := RunActions(env.sql, BatchActions(env.log[NextIndex(b.meta.lastLogId)..]), receiver);
       run.ok && run.sm.db.user == user
  }

  lemma ApplyTwiceCapture(env: Env<nat>)
    requires env.sql == CountStatements && |env.log| == 1 && env.log[0].payload.Normal? && env.empty == 0
    ensures var b := RunOf(env, [Build, Build, Apply, Apply, Apply, Build, Build, Build, Build], false, false).builder;
      b.Captured? && b.meta.lastLogId == None && b.image.user == 1 && b.held == 1
  {
    hide SnapshotIds.SnapshotId, Overwrite;
    var r2 := BuildStep(env, BuildStep(env, Fresh(env, false, false)));
    assert r2.builder.SawMarkers? && r2.builder.applied == None;
    var r5 := ApplyStep(env, ApplyStep(env, ApplyStep(env, r2)));
    assert r5.store.dataDb.user == 1 && r5.builder == r2.builder && r5.store.logDb == r2.store.logDb;
    assert Settled(r5) == 1;
    FinishFirst(env, r5);
    hide BuildStep, ApplyStep;
    NineSteps(env, [Build, Build, Apply, Apply, Apply, Build, Build, Build, Build], Fresh(env, false, false));
  }

  // Here the build runs between the marker and the SQL of the entry: the metadata names it, the
  // image lacks it, the receiver never applies it.
  lemma RaceSkipEntry(env: Env<nat>, applied: Option<LogId>, membership: EffectiveMembership)
    requires ValidEnv(env) && Lawful(env.codec) && NeverEmpty(env.codec) && env.sql == CountStatements
    requires |env.log| == 1 && env.log[0].payload.Normal? && env.empty == 0
    ensures var b := RunOf(env, [Apply, Apply, Build, Build, Build, Build, Build, Build, Apply], false, false).builder;
      && b.Captured? && b.meta.lastLogId == Some(env.log[0].logId) && b.held == 0 && b.image.user == 0
      && EndsAt(env, b, Sm(Install(env.codec, b.meta, env.codec.serialize(b.image)).value, applied, membership), 0)
      && Replay(env.sql, env.log, Start(env)) == Some(Model(1, DEFAULT_MEMBERSHIP))
  {
    var steps: seq<Step<nat>> := [Apply, Apply, Build, Build, Build, Build, Build, Build, Apply];
    SkipCapture(env);
    hide RunOf, Install, Load;
    ReceiverAfterRun(env, steps, false, false, applied, membership);
    CountReplay(env.log[..0] + env.log[1..], Start(env));
    CountReplay(env.log, Start(env));
  }

  lemma SkipCapture(env: Env<nat>)
    requires env.sql == CountStatements && |env.log| == 1 && env.log[0].payload.Normal? && env.empty == 0
    ensures var b := RunOf(env, [Apply, Apply, Build, Build, Build, Build, Build, Build, Apply], false, false).builder;
      b.Captured? && b.meta.lastLogId == Some(env.log[0].logId) && b.image.user == 0 && b.held == 0
  {
    hide SnapshotIds.SnapshotId, Overwrite;
    var r2 := ApplyStep(env, ApplyStep(env, Fresh(env, false, false)));
    assert r2.applied == Some(env.log[0].logId) && r2.store.dataDb.user == 0 && Settled(r2) == 0;
    var r4 := BuildStep(env, BuildStep(env, r2));
    assert r4.builder.SawMarkers? && r4.store == r2.store && Settled(r4) == 0;
    FinishFirst(env, r4);
    var r8 := BuildStep(env, BuildStep(env, BuildStep(env, BuildStep(env, r4))));
    hide BuildStep;
    assert ApplyStep(env, r8).builder == r8.builder by { hide Do, EntryActions, Data, WithData; }
    hide ApplyStep;
    NineSteps(env, [Apply, Apply, Build, Build, Build, Build, Build, Build, Apply], Fresh(env, false, false));
  }

  lemma NineSteps<U>(env: Env<U>, s: seq<Step<U>>, r: Replica<U>)
    requires |s| == 9
    ensures RunSteps(env, s, r)
      == Next(env, s[8], Next(env, s[7], Next(env, s[6], Next(env, s[5], Next(env, s[4], Next(env, s[3],
         Next(env, s[2], Next(env, s[1], Next(env, s[0], r)))))))))
  {
    hide Next;
    var r3 := Next(env, s[2], Next(env, s[1], Next(env, s[0], r)));
    var r6 := Next(env, s[5], Next(env, s[4], Next(env, s[3], r3)));
    ThreeSteps(env, s, r);
    ThreeSteps(env, s[3..], r3);
    ThreeSteps(env, s[6..], r6);
    assert s[3..][3..] == s[6..] && s[6..][3..] == [];
  }

  lemma ThreeSteps<U>(env: Env<U>, s: seq<Step<U>>, r: Replica<U>)
    requires |s| >= 3
    ensures RunSteps(env, s, r) == RunSteps(env, s[3..], Next(env, s[2], Next(env, s[1], Next(env, s[0], r))))
  {
    hide Next;
    assert s[1..][1..] == s[2..] && s[2..][1..] == s[3..];
    var r1 := Next(env, s[0], r);
    var r2 := Next(env, s[1], r1);
    assert RunSteps(env, s, r) == RunSteps(env, s[1..], r1) == RunSteps(env, s[2..], r2);
  }
}
