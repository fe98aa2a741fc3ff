// Which entries crashes lose, and when the data is nevertheless the full replay.
module ReplicaLoss {
  import opened RaftTypes
  import opened Sqlite
  import opened StateMachine
  import opened Replica
  import opened ReplicaInvariant
  import opened ReplicaTheorems

  ghost predicate NoInstall<U>(steps: seq<Step<U>>) {
    forall i :: 0 <= i < |steps| ==> !steps[i].Receive?
  }

  // The entries in whose gap the process died.
  ghost function GapCrashes<U>(env: Env<U>, steps: seq<Step<U>>, r: Replica<U>): set<nat> {
    if steps == [] then {}
    else (if steps[0].Crash? && InGap(env, r) then {r.next} else {})
         + GapCrashes(env, steps[1..], Next(env, steps[0], r))
  }

  predicate SameHandles<U>(r: Replica<U>, r': Replica<U>) {
    r'.store.shared == r.store.shared && r'.store.inMemory == r.store.inMemory
  }

  // What a build step can do to the databases.
  lemma BuildStore<U>(env: Env<U>, r: Replica<U>)
    ensures var store := BuildStep(env, r).store;
      || store == r.store
      || store == r.store.(logDb := Bumped(r.store.logDb))
      || (Exec(env.sql, InsertCounter, r.store.logDb).Some?
          && store == r.store.(logDb := Exec(env.sql, InsertCounter, r.store.logDb).value))
      || (r.builder.Titled? && store == WithData(r.store, WithMeta(Data(r.store), r.builder.meta)))
  {
    hide Exec, Data, WithData, WithMeta, Bumped, BumpedValue, MetaFor, Overwrite, Settled;
  }

  lemma BuildSameHandles<U>(env: Env<U>, r: Replica<U>)
    ensures SameHandles(r, BuildStep(env, r))
  {
    BuildStore(env, r);
    hide BuildStep, Exec, Data, Bumped, WithMeta;
  }

  lemma HandlesStay<U>(env: Env<U>, step: Step<U>, r: Replica<U>)
    ensures SameHandles(r, Next(env, step, r))
  {
    BuildSameHandles(env, r);
    hide BuildStep, Do, EntryActions, Exec, Data, CanReceive, SqlBelow, Unmine, Found, Load;
  }

  lemma CrashLoses<U>(env: Env<U>, r: Replica<U>)
    requires ValidEnv(env) && Inv(env, r) && r.onDisk.None?
    ensures var r' := CrashStep(env, r);
      && r'.onDisk.None?
      && r'.lost == if LosesData(r.store) then {} else if InGap(env, r) then r.lost + {r.next} else r.lost
  {
    FoundAtRest(env, r);
    hide Inv, LosesData, InGap, Load, Data, WithData;
  }

  lemma {:induction false} LostAlong<U>(env: Env<U>, steps: seq<Step<U>>, r: Replica<U>)
    requires ValidEnv(env) && Inv(env, r) && NoInstall(steps) && r.onDisk.None?
    requires LosesData(r.store) ==> r.lost == {}
    ensures RunSteps(env, steps, r).lost
      == if LosesData(r.store) then {} else r.lost + GapCrashes(env, steps, r)
    decreases |steps|
  {
    hide Inv, InGap, CrashStep, Next;
    if steps != [] {
      var r' := Next(env, steps[0], r);
      StepKeepsInv(env, steps[0], r);
      HandlesStay(env, steps[0], r);
      if steps[0].Crash? {
        assert r' == CrashStep(env, r) by { CrashIsNext(env, r); }
        CrashLoses(env, r);
      } else {
        OnlyCrashLoses(env, steps[0], r);
      }
      LostAlong(env, steps[1..], r');
    }
  }

  lemma CrashIsNext<U>(env: Env<U>, r: Replica<U>)
    ensures Next(env, Crash, r) == CrashStep(env, r)
  {
  }

  // Over every run without installs: the entries lost are exactly those in whose gap, after the
  // marker was written and before the effect, the process died. Data that does not outlive the
  // process loses nothing, it starts over.
  lemma LostExactly<U>(env: Env<U>, steps: seq<Step<U>>, shared: bool, inMemory: bool)
    requires ValidEnv(env) && NoInstall(steps)
    ensures RunOf(env, steps, shared, inMemory).lost
      == if !shared && inMemory then {} else GapCrashes(env, steps, Fresh(env, shared, inMemory))
  {
    FreshInv(env, shared, inMemory);
    LostAlong(env, steps, Fresh(env, shared, inMemory));
  }

  ghost predicate HoldsFullReplay<U>(env: Env<U>, r: Replica<U>) {
    && Settled(r) <= |env.log|
    && Load(Data(r.store)).Ok?
    && Replay(env.sql, env.log[..Settled(r)], Model(env.empty, DEFAULT_MEMBERSHIP))
       == Some(View(Load(Data(r.store)).value))
  }

  lemma DataIsReplay<U>(env: Env<U>, steps: seq<Step<U>>, shared: bool, inMemory: bool)
    requires ValidEnv(env)
    ensures var r := RunOf(env, steps, shared, inMemory);
      && Settled(r) <= |env.log| && (forall i :: i in r.lost ==> i < r.next <= Settled(r))
      && Load(Data(r.store)).Ok?
      && ReplayWithout(env, r.lost, Settled(r)) == Some(View(Load(Data(r.store)).value))
      && (HoldsFullReplay(env, r)
          <==> ReplayWithout(env, {}, Settled(r)) == ReplayWithout(env, r.lost, Settled(r)))
  {
    var r := RunOf(env, steps, shared, inMemory);
    AtMostOnce(env, steps, shared, inMemory);
    MarkersAgree(env, steps, shared, inMemory);
    hide RunOf;
    ReplayNoneLost(env, Settled(r));
  }

  // Without a crash in a gap, or with data in memory only, the data is the full replay of the
  // prefix, for every SQL.
  lemma NoGapCrashFullReplay<U>(env: Env<U>, steps: seq<Step<U>>, shared: bool, inMemory: bool)
    requires ValidEnv(env) && NoInstall(steps)
    ensures (!shared && inMemory) || GapCrashes(env, steps, Fresh(env, shared, inMemory)) == {} ==>
      HoldsFullReplay(env, RunOf(env, steps, shared, inMemory))
  {
    LostExactly(env, steps, shared, inMemory);
    DataIsReplay(env, steps, shared, inMemory);
  }

  // ---- Losses that change nothing ----

  predicate LastChange(log: seq<Entry>, n: nat, i: nat)
    requires i < n <= |log|
  {
    log[i].payload.MembershipChange? && forall j :: i < j < n ==> !log[j].payload.MembershipChange?
  }

  lemma {:induction false} MembershipIsOlder<U>(env: Env<U>, lost: set<nat>, n: nat)
    requires ValidEnv(env) && n <= |env.log| && ReplayWithout(env, lost, n).Some?
    ensures NextIndex(ReplayWithout(env, lost, n).value.membership.logId) <= n
  {
    if n > 0 { MembershipIsOlder(env, lost, n - 1); }
  }

  lemma {:induction false} MembershipWithout<U>(env: Env<U>, lost: set<nat>, n: nat)
    requires ValidEnv(env) && n <= |env.log|
    requires ReplayWithout(env, lost, n).Some? && ReplayWithout(env, {}, n).Some?
    ensures ReplayWithout(env, lost, n).value.membership == ReplayWithout(env, {}, n).value.membership
      <==> forall i: nat :: i in lost && i < n ==> !LastChange(env.log, n, i)
    decreases n
  {
    if n > 0 {
      MembershipWithout(env, lost, n - 1);
      if env.log[n - 1].payload.MembershipChange? {
        MembershipIsOlder(env, lost, n - 1);
        assert LastChange(env.log, n, n - 1);
        assert forall i: nat :: i < n - 1 ==> !LastChange(env.log, n, i);
      } else {
        assert !LastChange(env.log, n, n - 1);
        assert forall i: nat :: i < n - 1 ==> (LastChange(env.log, n, i) <==> LastChange(env.log, n - 1, i));
      }
    }
  }

  lemma {:induction false} UserWithout<U>(env: Env<U>, lost: set<nat>, n: nat)
    requires n <= |env.log| && forall i: nat :: i in lost && i < n ==> !env.log[i].payload.Normal?
    ensures ReplayWithout(env, lost, n).Some? <==> ReplayWithout(env, {}, n).Some?
    ensures ReplayWithout(env, lost, n).Some? ==>
      ReplayWithout(env, lost, n).value.user == ReplayWithout(env, {}, n).value.user
  {
    if n > 0 { UserWithout(env, lost, n - 1); }
  }

  // No process died in the gap of an SQL entry, or of the last membership entry.
  ghost predicate Harmless(log: seq<Entry>, lost: set<nat>, n: nat)
    requires n <= |log|
  {
    forall i: nat :: i in lost && i < n ==> !log[i].payload.Normal? && !LastChange(log, n, i)
  }

  // Then too the data is the full replay of the prefix, for every SQL.
  lemma HarmlessFullReplay<U>(env: Env<U>, steps: seq<Step<U>>, shared: bool, inMemory: bool)
    requires ValidEnv(env) && NoInstall(steps) && (shared || !inMemory)
    ensures var r := RunOf(env, steps, shared, inMemory);
      && Settled(r) <= |env.log|
      && (Harmless(env.log, GapCrashes(env, steps, Fresh(env, shared, inMemory)), Settled(r)) ==>
            HoldsFullReplay(env, r))
  {
    var r := RunOf(env, steps, shared, inMemory);
    LostExactly(env, steps, shared, inMemory);
    DataIsReplay(env, steps, shared, inMemory);
    hide RunOf, GapCrashes, HoldsFullReplay, Settled;
    var n := Settled(r);
    if Harmless(env.log, r.lost, n) {
      UserWithout(env, r.lost, n);
      MembershipWithout(env, r.lost, n);
    }
  }

  // ---- The loss shows: SQL that counts ----

  function CountStatements(text: string, params: seq<Param>, n: nat): Option<nat> {
    Some(n + 1)
  }

  function SqlCount(log: seq<Entry>, lost: set<nat>, n: nat): nat
    requires n <= |log|
  {
    if n == 0 then 0
    else SqlCount(log, lost, n - 1) + if log[n - 1].payload.Normal? && n - 1 !in lost then 1 else 0
  }

  lemma {:induction false} CountWithout(env: Env<nat>, lost: set<nat>, n: nat)
    requires env.sql == CountStatements && n <= |env.log|
    ensures ReplayWithout(env, lost, n).Some?
    ensures ReplayWithout(env, lost, n).value.user == env.empty + SqlCount(env.log, lost, n)
  {
    if n > 0 { CountWithout(env, lost, n - 1); }
  }

  lemma {:induction false} CountLess(log: seq<Entry>, lost: set<nat>, n: nat)
    requires n <= |log|
    ensures SqlCount(log, lost, n) <= SqlCount(log, {}, n)
    ensures SqlCount(log, lost, n) == SqlCount(log, {}, n)
      <==> forall i: nat :: i in lost && i < n ==> !log[i].payload.Normal?
  {
    if n > 0 { CountLess(log, lost, n - 1); }
  }

  // And only then: counting shows every other loss.
  lemma LossShows(env: Env<nat>, steps: seq<Step<nat>>, shared: bool, inMemory: bool)
    requires ValidEnv(env) && NoInstall(steps) && env.sql == CountStatements && (shared || !inMemory)
    ensures var r := RunOf(env, steps, shared, inMemory);
      && Settled(r) <= |env.log|
      && (HoldsFullReplay(env, r)
          <==> Harmless(env.log, GapCrashes(env, steps, Fresh(env, shared, inMemory)), Settled(r)))
  {
    var r := RunOf(env, steps, shared, inMemory);
    LostExactly(env, steps, shared, inMemory);
    DataIsReplay(env, steps, shared, inMemory);
    hide RunOf, GapCrashes, HoldsFullReplay, Settled;
    var n := Settled(r);
    CountWithout(env, r.lost, n);
    CountWithout(env, {}, n);
    CountLess(env.log, r.lost, n);
    MembershipWithout(env, r.lost, n);
  }

  // The shortest run that loses an entry.
  lemma LosingRun(env: Env<nat>, shared: bool)
    requires ValidEnv(env) && env.sql == CountStatements && env.empty == 0
    requires |env.log| > 0 && env.log[0].payload.Normal?
    ensures var r := RunOf(env, [Apply, Crash], shared, false);
      && r.lost == {0} && r.next == 1 && r.applied == Some(env.log[0].logId)
      && Data(r.store).user == 0
      && Replay(env.sql, env.log[..1], Model(0, DEFAULT_MEMBERSHIP)) == Some(Model(1, DEFAULT_MEMBERSHIP))
  {
    var r0 := Fresh(env, shared, false);
    var r1 := ApplyStep(env, r0);
    var steps: seq<Step<nat>> := [Apply, Crash];
    assert steps[1..] == [Crash] && steps[1..][1..] == [];
    assert RunOf(env, steps, shared, false) == RunSteps(env, steps[1..], r1) == CrashStep(env, r1);
    FreshInv(env, shared, false);
    ApplyKeepsInv(env, r0);
    assert r1.done == 1 && r1.next == 0 && Data(r1.store).user == 0;
    CrashLoses(env, r1);
    CrashPosition(env, r1);
    assert env.log[..1][1..] == [];
  }

  lemma CrashPosition<U>(env: Env<U>, r: Replica<U>)
    requires ValidEnv(env) && Inv(env, r) && r.onDisk.None? && !LosesData(r.store)
    ensures var r' := CrashStep(env, r);
      && r'.next == Marked(r) <= |env.log| && r'.applied == IdAt(env, Marked(r))
      && Data(r'.store) == Data(r.store)
  {
    assert NextIndex(IdAt(env, Marked(r))) == Marked(r);
    StoreData(r.store, Data(r.store));
    hide MemoryInv, HistoryInv, BuilderInv, FileInv, ReplayWithout;
  }
}
