// A call that nothing interleaves with is a run of the step system, also when it fails, so what
// holds for every run holds for the store's methods.
module ReplicaCalls {
  import opened RaftTypes
  import opened Sqlite
  import opened StateMachine
  import opened LogTable
  import opened Replica
  import opened ReplicaInvariant
  import opened ReplicaTheorems
  import opened SnapshotShipping

  function Repeat<U>(step: Step<U>, n: nat): seq<Step<U>> {
    if n == 0 then [] else [step] + Repeat(step, n - 1)
  }

  lemma {:induction false} RepeatSum<U>(step: Step<U>, m: nat, n: nat)
    ensures Repeat(step, m + n) == Repeat(step, m) + Repeat(step, n)
  {
    if m > 0 { RepeatSum(step, m - 1, n); }
  }

  lemma RepeatFirst<U>(env: Env<U>, step: Step<U>, n: nat, r: Replica<U>)
    requires n > 0
    ensures RunSteps(env, Repeat(step, n), r) == RunSteps(env, Repeat(step, n - 1), Next(env, step, r))
  {
    hide Next;
    assert Repeat(step, n)[1..] == Repeat(step, n - 1);
  }

  // ---- Applying a batch ----

  // Ready to apply `entries`, the next ones of the log.
  ghost predicate Ready<U>(env: Env<U>, r: Replica<U>, entries: seq<Entry>) {
    && PositionInv(env, r) && !r.halted && r.installing.None? && r.done == 0
    && r.next + |entries| <= |env.log| && env.log[r.next..r.next + |entries|] == entries
  }

  // Up to and including entry `next - 1` done, the memory and disk `run` left, or stopped there.
  ghost predicate Reflects<U>(r: Replica<U>, run: Run<U>, next: nat) {
    && Memory(r) == run.sm && r.installing.None?
    && (run.ok ==> r.next == next && r.done == 0 && !r.halted)
    && (!run.ok ==> r.halted)
  }

  lemma ApplyOne<U>(env: Env<U>, r: Replica<U>)
    requires PositionInv(env, r) && !r.halted && r.installing.None? && r.next < |env.log|
    ensures var r', acts := ApplyStep(env, r), EntryActions(env.log[r.next]);
      var sm := Do(env.sql, acts[r.done], Memory(r));
      if sm.None? then r' == r.(halted := true)
      else
        && Memory(r') == sm.value && r'.installing.None?
        && !r'.halted && r'.next == (if r.done + 1 == |acts| then r.next + 1 else r.next)
        && r'.done == (if r.done + 1 == |acts| then 0 else r.done + 1)
  {
    var acts := EntryActions(env.log[r.next]);
    hide EntryActions;
    if Do(env.sql, acts[r.done], Memory(r)).Some? {
      StoreData(r.store, Do(env.sql, acts[r.done], Memory(r)).value.db);
    }
  }

  // Nothing is applied after a rejected statement.
  lemma {:induction false} HaltedStays<U>(env: Env<U>, r: Replica<U>, n: nat)
    requires r.halted
    ensures RunSteps(env, Repeat(Apply, n), r) == r
  {
    if n > 0 {
      RepeatFirst(env, Apply, n, r);
      HaltedStays(env, r, n - 1);
    }
  }

  // The actions left of the entry at `next`, one apply step each.
  lemma {:induction false} ApplyRest<U>(env: Env<U>, r: Replica<U>)
    requires PositionInv(env, r) && !r.halted && r.installing.None? && r.next < |env.log|
    ensures var rest := EntryActions(env.log[r.next])[r.done..];
      Reflects(RunSteps(env, Repeat(Apply, |rest|), r), RunActions(env.sql, rest, Memory(r)), r.next + 1)
    decreases |EntryActions(env.log[r.next])| - r.done
  {
    var acts := EntryActions(env.log[r.next]);
    var rest := acts[r.done..];
    var r' := Next(env, Apply, r);
    assert rest[0] == acts[r.done] && rest[1..] == acts[r.done + 1..];
    RunFirst(env.sql, rest, Memory(r));
    ApplyOne(env, r);
    RepeatFirst(env, Apply, |rest|, r);
    hide EntryActions, ApplyStep, Next, Do, Memory, RunActions, Repeat;
    if Do(env.sql, acts[r.done], Memory(r)).None? {
      HaltedStays(env, r', |rest| - 1);
      assert Memory(r') == Memory(r) by { SameMemory(r, r'); }
    } else if r.done + 1 < |acts| {
      ApplyRest(env, r');
    } else {
      assert rest[1..] == [];
      NothingLeft(env, r');
    }
  }

  lemma RunFirst<U>(sql: Sql<U>, actions: seq<Action>, sm: Sm<U>)
    requires actions != []
    ensures RunActions(sql, actions, sm)
      == if Do(sql, actions[0], sm).None? then Run(sm, false)
         else RunActions(sql, actions[1..], Do(sql, actions[0], sm).value)
  {
    hide Do;
  }

  lemma SameMemory<U>(r: Replica<U>, r': Replica<U>)
    requires r' == r.(halted := true)
    ensures Memory(r') == Memory(r)
  {
  }

  lemma NothingLeft<U>(env: Env<U>, r: Replica<U>)
    ensures RunSteps(env, Repeat(Apply, 0), r) == r
    ensures RunActions(env.sql, [], Memory(r)) == Run(Memory(r), true)
  {
  }

  // The steps of a batch.
  ghost function AfterBatch<U>(env: Env<U>, entries: seq<Entry>, r: Replica<U>): Replica<U> {
    RunSteps(env, Repeat(Apply, |BatchActions(entries)|), r)
  }

  // A batch is exactly its actions, one apply step each; one that hits a rejected entry stops
  // there, with the same disk and memory, and the store then applies nothing more.
  lemma {:induction false} BatchIsSteps<U>(env: Env<U>, r: Replica<U>, entries: seq<Entry>)
    requires Ready(env, r, entries)
    ensures Reflects(AfterBatch(env, entries, r), RunActions(env.sql, BatchActions(entries), Memory(r)),
                     r.next + |entries|)
    decreases |entries|
  {
    if entries != [] {
      var first, rest := EntryActions(entries[0]), BatchActions(entries[1..]);
      var r1 := RunSteps(env, Repeat(Apply, |first|), r);
      var r2 := RunSteps(env, Repeat(Apply, |rest|), r1);
      BatchSplit(env, r, entries);
      ApplyRest(env, r);
      RepeatSum<U>(Apply, |first|, |rest|);
      RunTogether(env, Repeat(Apply, |first|), Repeat(Apply, |rest|), r);
      assert AfterBatch(env, entries, r) == r2;
      var one := RunActions(env.sql, first, Memory(r));
      hide *;
      if one.ok {
        RestReady(env, r, r1, one, entries);
        BatchIsSteps(env, r1, entries[1..]);
        AfterRest(env, r1, entries[1..]);
      } else {
        StoppedStays(env, r1, one, r.next + 1, r.next + |entries|, |rest|);
      }
    } else {
      NothingLeft(env, r);
    }
  }

  lemma AfterRest<U>(env: Env<U>, r: Replica<U>, entries: seq<Entry>)
    ensures AfterBatch(env, entries, r) == RunSteps(env, Repeat(Apply, |BatchActions(entries)|), r)
  {
  }

  lemma StoppedStays<U>(env: Env<U>, r: Replica<U>, run: Run<U>, next: nat, next': nat, n: nat)
    requires Reflects(r, run, next) && !run.ok
    ensures RunSteps(env, Repeat(Apply, n), r) == r && Reflects(r, run, next')
  {
    HaltedStays(env, r, n);
  }

  lemma RestReady<U>(env: Env<U>, r: Replica<U>, r1: Replica<U>, one: Run<U>, entries: seq<Entry>)
    requires Ready(env, r, entries) && entries != [] && Reflects(r1, one, r.next + 1) && one.ok
    ensures Ready(env, r1, entries[1..]) && r1.next + |entries[1..]| == r.next + |entries|
    ensures Memory(r1) == one.sm
  {
  }

  lemma BatchSplit<U>(env: Env<U>, r: Replica<U>, entries: seq<Entry>)
    requires Ready(env, r, entries) && entries != []
    ensures r.next < |env.log| && entries[0] == env.log[r.next]
    ensures var first, rest := EntryActions(entries[0]), BatchActions(entries[1..]);
      && BatchActions(entries) == first + rest && first == first[0..]
      && RunActions(env.sql, BatchActions(entries), Memory(r))
         == var one := RunActions(env.sql, first, Memory(r));
            if one.ok then RunActions(env.sql, rest, one.sm) else one
  {
    RunAppend(env.sql, EntryActions(entries[0]), BatchActions(entries[1..]), Memory(r));
  }

  // Applying leaves the file, and a log handle of its own, alone.
  ghost predicate SameRest<U>(r: Replica<U>, r': Replica<U>) {
    && r'.store.shared == r.store.shared && r'.file == r.file
    && (!r.store.shared ==> r'.store.logDb == r.store.logDb)
  }

  lemma {:induction false} BatchKeepsRest<U>(env: Env<U>, r: Replica<U>, n: nat)
    ensures SameRest(r, RunSteps(env, Repeat(Apply, n), r))
    decreases n
  {
    if n > 0 {
      RepeatFirst(env, Apply, n, r);
      assert SameRest(r, Next(env, Apply, r)) by { hide Do, EntryActions, Data; }
      hide Next;
      BatchKeepsRest(env, Next(env, Apply, r), n - 1);
    }
  }

  // After a crash and reopen the store is at rest and ready for every entry behind the persisted
  // marker, also if it had stopped at a rejected one, or died in the middle of an install or a build.
  lemma ReadyAfterCrash<U>(env: Env<U>, r: Replica<U>)
    requires ValidEnv(env) && Inv(env, r)
    ensures var r' := CrashStep(env, r);
      && r'.next <= |env.log| && Ready(env, r', env.log[r'.next..]) && r'.builder.Idle?
      && FetchLogId(LastLogKey, Data(r'.store)) == Ok(IdAt(env, r'.next)) && r'.applied == IdAt(env, r'.next)
  {
    CrashKeepsInv(env, r);
    FoundAtRest(env, r);
    assert r.next <= |env.log|;
    var r' := CrashStep(env, r);
    assert r'.installing.None? && r'.done == 0 && !r'.halted && !r'.since.installed;
    hide Found, Load, CrashStep, Data, FetchLogId, DiskInv, MemoryInv, HistoryInv, BuilderInv, FileInv;
    CurrentAtRest(env, r');
  }

  lemma CurrentAtRest<U>(env: Env<U>, r: Replica<U>)
    requires ValidEnv(env) && Inv(env, r) && r.done == 0 && !r.since.installed
    ensures r.next <= |env.log| && r.applied == IdAt(env, r.next)
    ensures FetchLogId(LastLogKey, Data(r.store)) == Ok(IdAt(env, r.next))
  {
    MemoryIsCurrent(env, r);
    hide MemoryInv, HistoryInv, BuilderInv, FileInv;
  }

  // ---- Writing the log ----

  function Writes<U>(program: seq<Stmt>): seq<Step<U>> {
    if program == [] then [] else [WriteLog(program[0])] + Writes(program[1..])
  }

  // The number of statements committed before one is refused.
  function Committed<U>(sql: Sql<U>, program: seq<Stmt>, db: Db<U>): (n: nat)
    ensures n <= |program|
  {
    if program == [] || Exec(sql, program[0], db).None? then 0
    else 1 + Committed(sql, program[1..], Exec(sql, program[0], db).value)
  }

  // The steps of a log program: one for each statement it commits.
  ghost function AfterProgram<U>(env: Env<U>, program: seq<Stmt>, r: Replica<U>): Replica<U> {
    RunSteps(env, Writes(program[..Committed(env.sql, program, r.store.logDb)]), r)
  }

  // A log program is one step for each statement it commits, and changes only the log database;
  // it succeeds exactly if it commits them all.
  lemma {:induction false} ProgramIsSteps<U>(env: Env<U>, program: seq<Stmt>, r: Replica<U>)
    requires forall i :: 0 <= i < |program| ==> IsLogWrite(program[i])
    ensures var out, n := RunProgram(env.sql, program, r.store.logDb), Committed(env.sql, program, r.store.logDb);
      && AfterProgram(env, program, r) == r.(store := r.store.(logDb := out.db))
      && (out.ok <==> n == |program|)
    decreases |program|
  {
    hide IsLogWrite, Exec;
    var n := Committed(env.sql, program, r.store.logDb);
    if n > 0 {
      var r' := Next(env, WriteLog(program[0]), r);
      assert r' == r.(store := r.store.(logDb := Exec(env.sql, program[0], r.store.logDb).value));
      ProgramIsSteps(env, program[1..], r');
      assert program[..n][0] == program[0] && program[..n][1..] == program[1..][..n - 1];
      var first: seq<Step<U>> := [WriteLog(program[0])];
      assert Writes(program[..n]) == first + Writes(program[1..][..n - 1]);
      assert Writes<U>(program[..n])[1..] == Writes(program[1..][..n - 1]);
    }
  }

  // Appending consists of such statements.
  lemma {:induction false} AppendWrites(entries: seq<Entry>)
    ensures forall i :: 0 <= i < |AppendProgram(entries)| ==> IsLogWrite(AppendProgram(entries)[i])
    decreases |entries|
  {
    if entries != [] { AppendWrites(entries[1..]); }
  }

  // ---- Building ----

  lemma BuildIsSteps<U>(env: Env<U>, r: Replica<U>)
    ensures exists n :: 3 <= n <= 7 && RunSteps(env, Repeat(Build, n), r) == SoloBuild(env, r)
  {
    hide BuildStep;
    var r3 := BuildStep(env, BuildStep(env, BuildStep(env, r)));
    ThreeBuilds(env, r);
    var counted := if r3.builder.NoCounter? then BuildStep(env, r3) else r3;
    var m: nat := if r3.builder.NoCounter? then 4 else 3;
    RepeatSum<U>(Build, 3, 1);
    RunTogether(env, Repeat(Build, 3), Repeat(Build, 1), r);
    RepeatFirst(env, Build, 1, r3);
    assert RunSteps(env, Repeat(Build, m), r) == counted;
    if counted.builder.Titled? {
      RepeatSum<U>(Build, m, 3);
      RunTogether(env, Repeat(Build, m), Repeat(Build, 3), r);
      ThreeBuilds(env, counted);
      assert RunSteps(env, Repeat(Build, m + 3), r) == SoloBuild(env, r);
    }
  }

  lemma ThreeBuilds<U>(env: Env<U>, r: Replica<U>)
    ensures RunSteps(env, Repeat(Build, 3), r) == BuildStep(env, BuildStep(env, BuildStep(env, r)))
  {
    hide BuildStep;
    var r1 := BuildStep(env, r);
    var r2 := BuildStep(env, r1);
    RepeatFirst(env, Build, 3, r);
    RepeatFirst(env, Build, 2, r1);
    RepeatFirst(env, Build, 1, r2);
  }

  // ---- Installing ----

  ghost function AfterInstall<U>(env: Env<U>, meta: SnapshotMeta, image: Db<U>, r: Replica<U>): Replica<U> {
    RunSteps(env, [Receive(meta, image), Record], r)
  }

  // Installing the bytes of an image that the store can receive is the two install steps.
  lemma InstallIsSteps<U>(env: Env<U>, r: Replica<U>, meta: SnapshotMeta, image: Db<U>, bytes: seq<Byte>)
    requires CanReceive(env, r, meta, image) && bytes != [] && env.codec.deserialize(bytes) == Some(image)
    ensures var r', received := AfterInstall(env, meta, image, r), Install(env.codec, meta, bytes);
      && received.Ok? && r'.store == WithData(r.store, received.value)
      && r'.applied == r.applied && r'.membership == r.membership && r'.file == r.file
  {
    var steps: seq<Step<U>> := [Receive(meta, image), Record];
    var r1 := ReceiveStep(env, meta, image, r);
    assert steps[1..][1..] == [];
    assert RunSteps(env, steps, r) == RunSteps(env, steps[1..], r1) == RecordStep(r1);
    StoreData(r.store, image);
    hide CanReceive, RunSteps, SqlBelow, Unmine, LosesData;
  }
}
