// The single-threaded database actor: async callers push tasks into a bounded queue, one thread
// takes and runs them, answers come back on one-shot channels, and callers may give up at any
// point. A run is any list of steps, so every interleaving is covered.
module Actor {
  const CAPACITY: nat := 10

  // What each call's closure does to the connection, and the result it sends back.
  type Tasks<!C, !R> = nat -> C -> (C, R)

  datatype Worker<+R> = Waiting | Took(id: nat) | Ran(id: nat, result: R)

  // `sending`: blocked in `send_async`. `slots`: one-shot channels that hold an answer not yet
  // received. The fields from `executed` on are history, they influence no step.
  datatype State<+C, +R> = State(
    conn: C,
    queue: seq<nat>,
    worker: Worker<R>,
    sending: set<nat>,
    cancelled: set<nat>,
    slots: map<nat, R>,
    answers: map<nat, R>,
    executed: seq<nat>,
    results: seq<R>,
    clock: nat,
    submittedAt: map<nat, nat>,
    answeredAt: map<nat, nat>)

  datatype Step =
    | Submit(id: nat)
    | Enqueue(id: nat)
    | Cancel(id: nat)
    | Dequeue
    | Execute
    | Reply
    | Receive(id: nat)

  predicate Enabled<C, R>(step: Step, s: State<C, R>) {
    match step
    case Submit(id) => id !in s.submittedAt
    case Enqueue(id) => id in s.sending && |s.queue| < CAPACITY
    case Cancel(id) => id in s.submittedAt && id !in s.answers && id !in s.cancelled
    case Dequeue => s.worker.Waiting? && s.queue != []
    case Execute => s.worker.Took?
    case Reply => s.worker.Ran?
    case Receive(id) => id in s.slots
  }

  // A step that is not enabled does nothing. Cancelling a blocked sender withdraws its task; a
  // later cancellation drops only the receiving end, and the task still runs.
  function Next<C, R>(tasks: Tasks<C, R>, step: Step, s: State<C, R>): State<C, R> {
    if !Enabled(step, s) then s
    else match step
      case Submit(id) =>
        s.(sending := s.sending + {id}, submittedAt := s.submittedAt[id := s.clock], clock := s.clock + 1)
      case Enqueue(id) =>
        s.(sending := s.sending - {id}, queue := s.queue + [id])
      case Cancel(id) =>
        s.(sending := s.sending - {id}, cancelled := s.cancelled + {id}, slots := s.slots - {id})
      case Dequeue => s.(queue := s.queue[1..], worker := Took(s.queue[0]))
      case Execute =>
        var (conn, result) := tasks(s.worker.id)(s.conn);
        s.(conn := conn, worker := Ran(s.worker.id, result),
           executed := s.executed + [s.worker.id], results := s.results + [result])
      case Reply =>
        s.(worker := Waiting,
           slots := if s.worker.id in s.cancelled then s.slots else s.slots[s.worker.id := s.worker.result])
      case Receive(id) =>
        s.(slots := s.slots - {id}, answers := s.answers[id := s.slots[id]],
           answeredAt := s.answeredAt[id := s.clock], clock := s.clock + 1)
  }

  function RunSteps<C, R>(tasks: Tasks<C, R>, steps: seq<Step>, s: State<C, R>): State<C, R> {
    if steps == [] then s else RunSteps(tasks, steps[1..], Next(tasks, steps[0], s))
  }

  function Initial<C, R>(conn: C): State<C, R> {
    State(conn, [], Waiting, {}, {}, map[], map[], [], [], 0, map[], map[])
  }

  // ---- The sequential database ----

  // Running `ids` one after the other from `before` gives `results` and ends in `after`.
  ghost predicate Sequential<C, R>(tasks: Tasks<C, R>, ids: seq<nat>, before: C, results: seq<R>, after: C) {
    if ids == [] then results == [] && after == before
    else
      && results != []
      && var (conn, result) := tasks(ids[0])(before);
         result == results[0] && Sequential(tasks, ids[1..], conn, results[1..], after)
  }

  lemma {:induction false} SequentialNext<C, R>(
    tasks: Tasks<C, R>, ids: seq<nat>, before: C, results: seq<R>, after: C, id: nat)
    requires Sequential(tasks, ids, before, results, after)
    ensures var (conn, result) := tasks(id)(after);
      Sequential(tasks, ids + [id], before, results + [result], conn)
    decreases |ids|
  {
    var (conn, result) := tasks(id)(after);
    if ids == [] {
      assert [id][1..] == [] && [result][1..] == [];
      assert ids + [id] == [id] && results + [result] == [result];
    } else {
      SequentialNext(tasks, ids[1..], tasks(ids[0])(before).0, results[1..], after, id);
      assert (ids + [id])[1..] == ids[1..] + [id];
      assert (results + [result])[1..] == results[1..] + [result];
    }
  }

  lemma {:induction false} SequentialLength<C, R>(
    tasks: Tasks<C, R>, ids: seq<nat>, before: C, results: seq<R>, after: C)
    requires Sequential(tasks, ids, before, results, after)
    ensures |results| == |ids|
    decreases |ids|
  {
    if ids != [] { SequentialLength(tasks, ids[1..], tasks(ids[0])(before).0, results[1..], after); }
  }

  // ---- The invariant ----

  // The queue order: what has run, what is about to run, what is queued.
  function Order<C, R>(s: State<C, R>): seq<nat> {
    s.executed + (if s.worker.Took? then [s.worker.id] else []) + s.queue
  }

  ghost predicate Distinct(ids: seq<nat>) {
    forall i, j :: 0 <= i < j < |ids| ==> ids[i] != ids[j]
  }

  ghost predicate OrderInv<C, R>(s: State<C, R>) {
    && Distinct(Order(s))
    && |s.queue| <= CAPACITY
    && (forall id :: id in s.sending ==> id !in Order(s) && id in s.submittedAt && id !in s.cancelled)
    && (forall id :: id in Order(s) || id in s.cancelled ==> id in s.submittedAt)
    && (forall id :: id in s.submittedAt ==> id in s.sending || id in Order(s) || id in s.cancelled)
  }

  ghost predicate ResultsInv<C, R>(tasks: Tasks<C, R>, conn: C, s: State<C, R>) {
    && |s.results| == |s.executed|
    && Sequential(tasks, s.executed, conn, s.results, s.conn)
    && (s.worker.Ran? ==>
          && s.executed != [] && s.worker.id == s.executed[|s.executed| - 1]
          && s.worker.result == s.results[|s.results| - 1]
          && s.worker.id !in s.slots && s.worker.id !in s.answers)
    && (forall id :: id in s.slots || id in s.answers ==> id in s.executed)
    && (forall id :: id in s.slots ==> id !in s.answers)
    && (forall i :: 0 <= i < |s.executed| && s.executed[i] in s.slots ==> s.slots[s.executed[i]] == s.results[i])
    && (forall i :: 0 <= i < |s.executed| && s.executed[i] in s.answers ==> s.answers[s.executed[i]] == s.results[i])
    && (forall id :: id in s.executed ==>
          id in s.slots || id in s.answers || id in s.cancelled || (s.worker.Ran? && s.worker.id == id))
  }

  ghost predicate TimeInv<C, R>(s: State<C, R>) {
    && s.answeredAt.Keys == s.answers.Keys
    && (forall id :: id in s.submittedAt ==> s.submittedAt[id] < s.clock)
    && InTime(Order(s), s.submittedAt, s.answeredAt)
  }

  // Whatever is queued no later than an answered call was submitted before that answer.
  ghost predicate InTime(order: seq<nat>, submittedAt: map<nat, nat>, answeredAt: map<nat, nat>) {
    forall i, j :: 0 <= i <= j < |order| && order[j] in answeredAt && order[i] in submittedAt ==>
      submittedAt[order[i]] < answeredAt[order[j]]
  }

  lemma InTimeGrows(
    order: seq<nat>, submittedAt: map<nat, nat>, answeredAt: map<nat, nat>, id: nat, clock: nat)
    requires InTime(order, submittedAt, answeredAt)
    requires forall c :: c in submittedAt ==> submittedAt[c] < clock
    ensures id !in order ==> InTime(order, submittedAt[id := clock], answeredAt)
    ensures id !in answeredAt ==> InTime(order + [id], submittedAt, answeredAt)
    ensures InTime(order, submittedAt, answeredAt[id := clock])
  {
  }

  ghost predicate Inv<C, R>(tasks: Tasks<C, R>, conn: C, s: State<C, R>) {
    OrderInv(s) && ResultsInv(tasks, conn, s) && TimeInv(s)
  }

  // Only a send changes the order, by appending to it.
  lemma OrderStep<C, R>(tasks: Tasks<C, R>, step: Step, s: State<C, R>)
    requires Enabled(step, s)
    ensures Order(Next(tasks, step, s)) == if step.Enqueue? then Order(s) + [step.id] else Order(s)
  {
    var s' := Next(tasks, step, s);
    match step
    case Dequeue => assert [s.queue[0]] + s.queue[1..] == s.queue;
    case _ =>
  }

  lemma OrderKept<C, R>(tasks: Tasks<C, R>, step: Step, s: State<C, R>)
    requires OrderInv(s) && Enabled(step, s)
    ensures OrderInv(Next(tasks, step, s))
  {
    OrderStep(tasks, step, s);
    hide Order;
  }

  lemma TimeKept<C, R>(tasks: Tasks<C, R>, conn: C, step: Step, s: State<C, R>)
    requires Inv(tasks, conn, s) && Enabled(step, s)
    ensures TimeInv(Next(tasks, step, s))
  {
    hide Sequential, Distinct, InTime;
    OrderStep(tasks, step, s);
    assert step.Submit? ==> step.id !in Order(s);
    assert step.Enqueue? ==> step.id !in s.answers;
    hide Order, ResultsInv, OrderInv;
    if step.Submit? || step.Enqueue? || step.Receive? {
      InTimeGrows(Order(s), s.submittedAt, s.answeredAt, step.id, s.clock);
    }
  }

  lemma DistinctPrefix(a: seq<nat>, b: seq<nat>)
    requires Distinct(a + b)
    ensures Distinct(a) && forall id :: id in a ==> id !in b
  {
    assert forall i :: 0 <= i < |a| ==> (a + b)[i] == a[i];
    assert forall i :: 0 <= i < |b| ==> (a + b)[|a| + i] == b[i];
  }

  lemma ExecuteResults<C, R>(tasks: Tasks<C, R>, conn: C, s: State<C, R>)
    requires Inv(tasks, conn, s) && Enabled(Execute, s)
    ensures ResultsInv(tasks, conn, Next(tasks, Execute, s))
  {
    var id := s.worker.id;
    SequentialNext(tasks, s.executed, conn, s.results, s.conn, id);
    assert Order(s) == s.executed + ([id] + s.queue);
    DistinctPrefix(s.executed, [id] + s.queue);
    assert id in [id] + s.queue;
    hide Distinct, Order, OrderInv, TimeInv, Sequential;
  }

  lemma ReplyResults<C, R>(tasks: Tasks<C, R>, conn: C, s: State<C, R>)
    requires Inv(tasks, conn, s) && Enabled(Reply, s)
    ensures ResultsInv(tasks, conn, Next(tasks, Reply, s))
  {
    assert Order(s) == s.executed + s.queue;
    DistinctPrefix(s.executed, s.queue);
    hide Order, OrderInv, TimeInv, Sequential;
  }

  lemma OtherResults<C, R>(tasks: Tasks<C, R>, conn: C, step: Step, s: State<C, R>)
    requires Inv(tasks, conn, s) && Enabled(step, s) && !step.Execute? && !step.Reply?
    ensures ResultsInv(tasks, conn, Next(tasks, step, s))
  {
    hide OrderInv, TimeInv, Sequential;
  }

  lemma StepKeepsInv<C, R>(tasks: Tasks<C, R>, conn: C, step: Step, s: State<C, R>)
    requires Inv(tasks, conn, s)
    ensures Inv(tasks, conn, Next(tasks, step, s))
  {
    if Enabled(step, s) {
      hide OrderInv, ResultsInv, TimeInv, Next, Enabled;
      OrderKept(tasks, step, s);
      TimeKept(tasks, conn, step, s);
      match step
      case Execute => ExecuteResults(tasks, conn, s);
      case Reply => ReplyResults(tasks, conn, s);
      case _ => OtherResults(tasks, conn, step, s);
    }
  }

  lemma {:induction false} RunKeepsInv<C, R>(tasks: Tasks<C, R>, conn: C, steps: seq<Step>, s: State<C, R>)
    requires Inv(tasks, conn, s)
    ensures Inv(tasks, conn, RunSteps(tasks, steps, s))
    decreases |steps|
  {
    hide Inv, Next;
    if steps != [] {
      StepKeepsInv(tasks, conn, steps[0], s);
      RunKeepsInv(tasks, conn, steps[1..], Next(tasks, steps[0], s));
    }
  }

  // ---- Linearizable ----

  // A call answered before another was submitted precedes it.
  ghost predicate RealTimeOrder<C, R>(s: State<C, R>, order: seq<nat>) {
    forall i, j | 0 <= i < |order| && 0 <= j < |order| && order[i] in s.answeredAt && order[j] in s.submittedAt ::
      s.answeredAt[order[i]] < s.submittedAt[order[j]] ==> i < j
  }

  // For any number of callers and any interleaving, cancellations included: no task is queued
  // twice; running the tasks one after the other in queue order explains the connection and the
  // results; every caller that got an answer got its own task's result; the order respects
  // real time; and the queue never exceeds its capacity.
  lemma Linearizable<C, R>(tasks: Tasks<C, R>, steps: seq<Step>, conn: C)
    ensures var s := RunSteps(tasks, steps, Initial(conn));
      && Distinct(Order(s)) && s.executed <= Order(s)
      && Sequential(tasks, s.executed, conn, s.results, s.conn)
      && |s.results| == |s.executed|
      && (forall id :: id in s.answers ==>
            exists i | 0 <= i < |s.executed| && s.executed[i] == id :: s.answers[id] == s.results[i])
      && RealTimeOrder(s, Order(s))
      && |s.queue| <= CAPACITY
  {
    RunKeepsInv(tasks, conn, steps, Initial(conn));
    var s := RunSteps(tasks, steps, Initial(conn));
    hide Sequential, RunSteps, Next;
    forall id | id in s.answers
      ensures exists i | 0 <= i < |s.executed| && s.executed[i] == id :: s.answers[id] == s.results[i]
    {
      var i :| 0 <= i < |s.executed| && s.executed[i] == id;
      assert s.answers[id] == s.results[i];
    }
  }

  // The same by position: the caller of the task that ran `i`th gets the `i`th result, and only tasks
  // that ran are answered.
  lemma OwnAnswers<C, R>(tasks: Tasks<C, R>, steps: seq<Step>, conn: C)
    ensures var s := RunSteps(tasks, steps, Initial(conn));
      && |s.results| == |s.executed|
      && (forall i :: 0 <= i < |s.executed| && s.executed[i] in s.answers ==>
            s.answers[s.executed[i]] == s.results[i])
      && (forall id :: id in s.answers ==> id in s.executed)
  {
    RunKeepsInv(tasks, conn, steps, Initial(conn));
    hide RunSteps, Sequential, OrderInv, TimeInv;
  }

  // A task in the queue order stays there, whoever gives up: once queued it is never withdrawn.
  lemma {:induction false} QueuedStays<C, R>(tasks: Tasks<C, R>, steps: seq<Step>, s: State<C, R>)
    ensures Order(s) <= Order(RunSteps(tasks, steps, s))
    decreases |steps|
  {
    hide Order, Next, Enabled;
    if steps != [] {
      if Enabled(steps[0], s) { OrderStep(tasks, steps[0], s); } else { NothingHappens(tasks, steps[0], s); }
      QueuedStays(tasks, steps[1..], Next(tasks, steps[0], s));
    }
  }

  // A sender is held up exactly while ten tasks are queued.
  lemma HeldUp<C, R>(tasks: Tasks<C, R>, steps: seq<Step>, conn: C, id: nat)
    requires id in RunSteps(tasks, steps, Initial(conn)).sending
    ensures var s := RunSteps(tasks, steps, Initial(conn));
      Enabled(Enqueue(id), s) <==> |s.queue| != 10
  {
    Linearizable(tasks, steps, conn);
    hide RunSteps;
  }

  // ---- Never stuck ----

  predicate IsProgress(step: Step) {
    !step.Submit? && !step.Cancel?
  }

  // Each task has at most five stages ahead of it: queueing, taking, running, replying, receiving.
  function Measure<C, R>(s: State<C, R>): nat {
    5 * |s.sending| + 4 * |s.queue| + |s.slots| +
    match s.worker
    case Waiting => 0
    case Took(_) => 3
    case Ran(_, _) => 2
  }

  lemma RemoveKey<R>(m: map<nat, R>, id: nat)
    ensures |m - {id}| == if id in m then |m| - 1 else |m|
  {
    assert (m - {id}).Keys == m.Keys - {id};
    if id !in m { assert m - {id} == m; }
  }

  lemma AddKey<R>(m: map<nat, R>, id: nat, r: R)
    ensures |m[id := r]| <= |m| + 1
  {
    assert m[id := r].Keys == m.Keys + {id};
  }

  lemma RemoveMember(ids: set<nat>, id: nat)
    ensures |ids - {id}| == if id in ids then |ids| - 1 else |ids|
  {
    if id !in ids { assert ids - {id} == ids; }
  }

  lemma ProgressDecreases<C, R>(tasks: Tasks<C, R>, step: Step, s: State<C, R>)
    requires Enabled(step, s) && !step.Submit?
    ensures Measure(Next(tasks, step, s)) <= Measure(s) - if IsProgress(step) then 1 else 0
  {
    match step
    case Enqueue(id) => RemoveMember(s.sending, id);
    case Cancel(id) => RemoveMember(s.sending, id); RemoveKey(s.slots, id);
    case Receive(id) => RemoveKey(s.slots, id);
    case Reply => AddKey(s.slots, s.worker.id, s.worker.result);
    case _ =>
  }

  // As long as a caller that has not given up is without an answer, the worker or some caller
  // can take a step, however many senders are blocked.
  lemma NotStuck<C, R>(tasks: Tasks<C, R>, steps: seq<Step>, conn: C, id: nat)
    requires var s := RunSteps(tasks, steps, Initial(conn));
      id in s.submittedAt && id !in s.answers && id !in s.cancelled
    ensures exists step :: IsProgress(step) && Enabled(step, RunSteps(tasks, steps, Initial(conn)))
  {
    RunKeepsInv(tasks, conn, steps, Initial(conn));
    var s := RunSteps(tasks, steps, Initial(conn));
    hide RunSteps, Sequential;
    var step :=
      if s.worker.Took? then Execute
      else if s.worker.Ran? then Reply
      else if s.queue != [] then Dequeue
      else if id in s.sending then Enqueue(id)
      else Receive(id);
    assert IsProgress(step) && Enabled(step, s);
  }

  // The progress steps that were enabled when their turn came.
  function ProgressMade<C, R>(tasks: Tasks<C, R>, steps: seq<Step>, s: State<C, R>): nat {
    if steps == [] then 0
    else (if IsProgress(steps[0]) && Enabled(steps[0], s) then 1 else 0)
         + ProgressMade(tasks, steps[1..], Next(tasks, steps[0], s))
  }

  // With no new submissions, at most `Measure(s)` such steps remain in any run, whatever is
  // cancelled on the way, and a run that makes that many ends with nothing left to do.
  lemma {:induction false} ProgressBounded<C, R>(tasks: Tasks<C, R>, steps: seq<Step>, s: State<C, R>)
    requires forall i :: 0 <= i < |steps| ==> !steps[i].Submit?
    ensures ProgressMade(tasks, steps, s) + Measure(RunSteps(tasks, steps, s)) <= Measure(s)
    ensures ProgressMade(tasks, steps, s) == Measure(s) ==> Quiescent(RunSteps(tasks, steps, s))
    decreases |steps|
  {
    hide Measure, Next, Enabled, Quiescent;
    if steps != [] {
      if Enabled(steps[0], s) { ProgressDecreases(tasks, steps[0], s); } else { NothingHappens(tasks, steps[0], s); }
      ProgressBounded(tasks, steps[1..], Next(tasks, steps[0], s));
      assert Measure(RunSteps(tasks, steps, s)) == 0 ==> Quiescent(RunSteps(tasks, steps, s)) by {
        NothingLeft(RunSteps(tasks, steps, s));
      }
    } else {
      NothingLeft(s);
    }
  }

  // No step of the worker and none of a caller that waits is possible.
  ghost predicate Quiescent<C, R>(s: State<C, R>) {
    forall step :: IsProgress(step) ==> !Enabled(step, s)
  }

  lemma NothingLeft<C, R>(s: State<C, R>)
    ensures Measure(s) == 0 <==> Quiescent(s)
  {
    if Quiescent(s) {
      assert !Enabled(Execute, s) && !Enabled(Reply, s) && !Enabled(Dequeue, s);
      assert s.worker.Waiting? && s.queue == [];
      if id :| id in s.sending { assert Enabled(Enqueue(id), s); }
      if id :| id in s.slots { assert Enabled(Receive(id), s); }
      assert s.sending == {} && s.slots == map[];
    }
  }

  // Once nothing is left to do, every task that was queued has run, exactly once and in queue order,
  // those of callers that gave up included, and every caller that did not give up has its answer,
  // which `Linearizable` says is the result of its own task.
  lemma AllAnswered<C, R>(tasks: Tasks<C, R>, steps: seq<Step>, conn: C)
    ensures var s := RunSteps(tasks, steps, Initial(conn));
      Quiescent(s) ==>
        && s.executed == Order(s) && Distinct(s.executed)
        && (forall id :: id in s.submittedAt && id !in s.cancelled ==> id in s.answers)
        && (forall id :: id in s.submittedAt && id !in s.executed ==> id in s.cancelled)
  {
    var s := RunSteps(tasks, steps, Initial(conn));
    RunKeepsInv(tasks, conn, steps, Initial(conn));
    hide RunSteps, Sequential, Distinct, TimeInv;
    if Quiescent(s) {
      assert !Enabled(Execute, s) && !Enabled(Reply, s) && !Enabled(Dequeue, s);
      assert s.worker.Waiting? && s.queue == [];
      assert Order(s) == s.executed;
      forall id | id in s.submittedAt && id !in s.cancelled ensures id in s.answers {
        assert !Enabled(Enqueue(id), s) && !Enabled(Receive(id), s);
      }
    }
  }

  // That point can be reached from every state, in at most `Measure(s)` steps.
  lemma {:induction false} CanFinish<C, R>(tasks: Tasks<C, R>, s: State<C, R>) returns (steps: seq<Step>)
    ensures |steps| <= Measure(s) && (forall i :: 0 <= i < |steps| ==> IsProgress(steps[i]))
    ensures Quiescent(RunSteps(tasks, steps, s))
    decreases Measure(s)
  {
    steps := [];
    if !Quiescent(s) {
      var step :| IsProgress(step) && Enabled(step, s);
      ProgressDecreases(tasks, step, s);
      hide Measure, Quiescent, Next;
      var rest := CanFinish(tasks, Next(tasks, step, s));
      steps := [step] + rest;
      assert steps[1..] == rest;
    }
  }

  lemma NothingHappens<C, R>(tasks: Tasks<C, R>, step: Step, s: State<C, R>)
    requires !Enabled(step, s)
    ensures Next(tasks, step, s) == s
  {
  }

  // ---- The worker's loop ----

  function Flatten(arrivals: seq<seq<nat>>): seq<nat> {
    if arrivals == [] then [] else arrivals[0] + Flatten(arrivals[1..])
  }

  lemma FlattenNext(arrivals: seq<seq<nat>>, turn: nat)
    requires turn < |arrivals|
    ensures Flatten(arrivals[turn..]) == arrivals[turn] + Flatten(arrivals[turn + 1..])
  {
    assert arrivals[turn..][1..] == arrivals[turn + 1..];
  }

  class Runner<C(0), R> {
    var conn: C
    var queue: seq<nat>
    var sent: seq<R>

    constructor (conn: C, queue: seq<nat>)
      ensures this.conn == conn && this.queue == queue && sent == []
    {
      this.conn, this.queue, sent := conn, queue, [];
    }

    // `run_tasks`, until the senders are gone: it runs every task in the channel, in order, each on
    // the connection the one before left. `arrivals` are the tasks that come in meanwhile, turn by
    // turn; a turn in which none is there is one the worker spends waiting.
    method RunTasks(tasks: Tasks<C, R>, arrivals: seq<seq<nat>>)
      modifies this
      ensures queue == []
      ensures old(sent) <= sent
      ensures Sequential(tasks, old(queue) + Flatten(arrivals), old(conn), sent[|old(sent)|..], conn)
    {
      ghost var all, done: seq<nat> := queue + Flatten(arrivals), [];
      ghost var rest := Flatten(arrivals);
      ghost var mine: seq<R> := [];
      var turn := 0;
      assert arrivals[0..] == arrivals;
      assert Sequential(tasks, done, conn, mine, conn) && Split(all, done, queue, rest);
      hide Sequential, Flatten, Split;
      while queue != [] || turn < |arrivals|
        invariant 0 <= turn <= |arrivals| && rest == Flatten(arrivals[turn..])
        invariant Split(all, done, queue, rest)
        invariant sent == old(sent) + mine
        invariant Sequential(tasks, done, old(conn), mine, conn)
        decreases |arrivals| - turn, |queue|
      {
        if turn < |arrivals| {
          FlattenNext(arrivals, turn);
          SplitSteps(all, done, queue, rest);
          queue, turn, rest := queue + arrivals[turn], turn + 1, Flatten(arrivals[turn + 1..]);
        }
        if queue != [] {
          var id := queue[0];
          var (after, result) := tasks(id)(conn);
          SequentialNext(tasks, done, old(conn), mine, conn, id);
          SplitSteps(all, done, queue, rest);
          assert sent + [result] == old(sent) + (mine + [result]);
          conn, queue, sent := after, queue[1..], sent + [result];
          done, mine := done + [id], mine + [result];
        }
      }
      Drained(arrivals[turn..], all, done);
      assert sent[|old(sent)|..] == mine;
    }
  }

  // The tasks in order: run, in the channel, still to come.
  ghost predicate Split(all: seq<nat>, done: seq<nat>, queue: seq<nat>, rest: seq<nat>) {
    all == done + queue + rest
  }

  lemma SplitSteps(all: seq<nat>, done: seq<nat>, queue: seq<nat>, rest: seq<nat>)
    requires Split(all, done, queue, rest)
    ensures queue != [] ==> Split(all, done + [queue[0]], queue[1..], rest)
    ensures forall more, rest' :: rest == more + rest' ==> Split(all, done, queue + more, rest')
  {
    forall more, rest' | rest == more + rest' ensures Split(all, done, queue + more, rest') {
      assert done + queue + (more + rest') == done + (queue + more) + rest';
    }
  }

  lemma Drained(arrivals: seq<seq<nat>>, all: seq<nat>, done: seq<nat>)
    requires arrivals == [] && Split(all, done, [], Flatten(arrivals))
    ensures done == all
  {
  }
}
