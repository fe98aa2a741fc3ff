// Any number of concurrent `get_and_inc_snapshot_index` calls, each split into its UPDATE and
// its INSERT, with crashes and other statements in between.
module SnapshotIndex {
  import opened RaftTypes
  import opened Sqlite
  import opened SnapshotIds

  // `Holding`: the statement committed, the caller has not got its answer yet. `Dropped`: the
  // process died first, with or without an index already taken.
  datatype Call =
    | Started
    | NoRow
    | Holding(index: I64)
    | Returned(index: I64)
    | Failed
    | Dropped(taken: Option<I64>)

  function Taken(c: Call): Option<I64> {
    match c
    case Holding(v) => Some(v)
    case Returned(v) => Some(v)
    case Dropped(taken) => taken
    case _ => None
  }

  datatype State<+U> = State(logDb: Db<U>, calls: map<nat, Call>)

  datatype Step =
    | Begin(c: nat)
    | Update(c: nat)
    | Insert(c: nat)
    | Return(c: nat)
    | Other(stmt: Stmt)
    | Crash

  predicate TouchesCounter(stmt: Stmt) {
    match stmt
    case BumpCounter => true
    case InsertCounter => true
    case Upsert(key, _) => key == SnapshotIndexKey
    case _ => false
  }

  // A step whose guard does not hold does nothing.
  function Next<U>(sql: Sql<U>, step: Step, s: State<U>): State<U> {
    match step
    case Begin(c) => if c in s.calls then s else s.(calls := s.calls[c := Started])
    case Update(c) =>
      if c !in s.calls || s.calls[c] != Started then s
      else
        var call := match BumpedValue(s.logDb)
          case Err => Failed
          case Ok(None) => NoRow
          case Ok(Some(v)) => Holding(v);
        State(Bumped(s.logDb), s.calls[c := call])
    case Insert(c) =>
      if c !in s.calls || s.calls[c] != NoRow then s
      else (match Exec(sql, InsertCounter, s.logDb)
            case None => s.(calls := s.calls[c := Failed])
            case Some(db) => State(db, s.calls[c := Holding(0)]))
    case Return(c) =>
      if c in s.calls && s.calls[c].Holding? then s.(calls := s.calls[c := Returned(s.calls[c].index)]) else s
    case Other(stmt) =>
      if TouchesCounter(stmt) then s
      else (match Exec(sql, stmt, s.logDb)
            case None => s
            case Some(db) => s.(logDb := db))
    case Crash => s.(calls := map c | c in s.calls :: Die(s.calls[c]))
  }

  function Die(c: Call): Call {
    if c.Returned? || c.Failed? || c.Dropped? then c else Dropped(Taken(c))
  }

  function RunSteps<U>(sql: Sql<U>, steps: seq<Step>, s: State<U>): State<U> {
    if steps == [] then s else RunSteps(sql, steps[1..], Next(sql, steps[0], s))
  }

  // Every index up to the limit was taken by exactly one call.
  ghost predicate Inv<U>(s: State<U>) {
    && (SnapshotIndexKey in s.logDb.kv ==>
          s.logDb.kv[SnapshotIndexKey].RealCounter?
          || (s.logDb.kv[SnapshotIndexKey].Counter? && s.logDb.kv[SnapshotIndexKey].n >= 0))
    && (forall c :: c in s.calls && Taken(s.calls[c]).Some? ==>
          0 <= Taken(s.calls[c]).value <= Limit(s.logDb.kv))
    && (forall c, d :: c in s.calls && d in s.calls && c != d && Taken(s.calls[c]).Some? ==>
          Taken(s.calls[c]) != Taken(s.calls[d]))
    && (forall v: I64 :: 0 <= v <= Limit(s.logDb.kv) ==> IsTaken(s, v))
  }

  ghost predicate IsTaken<U>(s: State<U>, v: I64) {
    exists c :: c in s.calls && Taken(s.calls[c]) == Some(v)
  }

  // A call without an index gets the one above the limit, or none.
  lemma GiveIndex<U>(s: State<U>, s': State<U>, c: nat, call: Call)
    requires Inv(s) && (c in s.calls ==> Taken(s.calls[c]) == None)
    requires s'.calls == s.calls[c := call]
    requires SnapshotIndexKey in s'.logDb.kv ==>
      s'.logDb.kv[SnapshotIndexKey].RealCounter?
      || (s'.logDb.kv[SnapshotIndexKey].Counter? && s'.logDb.kv[SnapshotIndexKey].n >= 0)
    requires Limit(s'.logDb.kv) == Limit(s.logDb.kv) + if Taken(call).Some? then 1 else 0
    requires Taken(call).Some? ==> Taken(call) == Some(Limit(s'.logDb.kv))
    ensures Inv(s')
  {
    forall v: I64 | 0 <= v <= Limit(s'.logDb.kv) ensures IsTaken(s', v) {
      if v <= Limit(s.logDb.kv) {
        assert IsTaken(s, v);
        var d :| d in s.calls && Taken(s.calls[d]) == Some(v);
        assert d in s'.calls && s'.calls[d] == s.calls[d];
      } else {
        assert c in s'.calls && Taken(s'.calls[c]) == Some(v);
      }
    }
  }

  lemma SameTaken<U>(s: State<U>, s': State<U>)
    requires Inv(s) && s'.calls.Keys == s.calls.Keys
    requires forall c :: c in s.calls ==> Taken(s'.calls[c]) == Taken(s.calls[c])
    requires (SnapshotIndexKey in s'.logDb.kv) == (SnapshotIndexKey in s.logDb.kv)
    requires SnapshotIndexKey in s.logDb.kv ==> s'.logDb.kv[SnapshotIndexKey] == s.logDb.kv[SnapshotIndexKey]
    ensures Inv(s')
  {
    forall v: I64 | 0 <= v <= Limit(s'.logDb.kv) ensures IsTaken(s', v) {
      assert IsTaken(s, v);
      var d :| d in s.calls && Taken(s.calls[d]) == Some(v);
      assert d in s'.calls && Taken(s'.calls[d]) == Some(v);
    }
  }

  lemma StepKeepsInv<U>(sql: Sql<U>, step: Step, s: State<U>)
    requires Inv(s)
    ensures Inv(Next(sql, step, s))
  {
    var s' := Next(sql, step, s);
    match step
    case Begin(c) => hide Exec; if c !in s.calls { GiveIndex(s, s', c, Started); }
    case Update(c) => hide Exec; if s' != s { GiveIndex(s, s', c, s'.calls[c]); }
    case Insert(c) => if s' != s { GiveIndex(s, s', c, s'.calls[c]); }
    case Return(c) => hide Exec; SameTaken(s, s');
    case Other(stmt) =>
      if s' != s { OtherKeepsCounter(sql, stmt, s.logDb); }
      hide Exec;
      SameTaken(s, s');
    case Crash => hide Exec; SameTaken(s, s');
  }

  lemma OtherKeepsCounter<U>(sql: Sql<U>, stmt: Stmt, db: Db<U>)
    requires !TouchesCounter(stmt) && Exec(sql, stmt, db).Some?
    ensures var db' := Exec(sql, stmt, db).value;
      && (SnapshotIndexKey in db'.kv <==> SnapshotIndexKey in db.kv)
      && (SnapshotIndexKey in db.kv ==> db'.kv[SnapshotIndexKey] == db.kv[SnapshotIndexKey])
  {
  }

  lemma {:induction false} RunKeepsInv<U>(sql: Sql<U>, steps: seq<Step>, s: State<U>)
    requires Inv(s)
    ensures Inv(RunSteps(sql, steps, s))
    decreases |steps|
  {
    hide Inv, Next;
    if steps != [] {
      StepKeepsInv(sql, steps[0], s);
      RunKeepsInv(sql, steps[1..], Next(sql, steps[0], s));
    }
  }

  predicate IsFresh<U>(s: State<U>) {
    s.calls == map[] && SnapshotIndexKey !in s.logDb.kv
  }

  // Over every interleaving and with crashes anywhere, no two calls return the same index, and
  // none returns an index that a call which died had already taken.
  lemma IndicesDistinct<U>(sql: Sql<U>, steps: seq<Step>, s: State<U>, c: nat, d: nat)
    requires IsFresh(s) && c != d
    ensures var calls := RunSteps(sql, steps, s).calls;
      c in calls && d in calls && calls[c].Returned? && Taken(calls[d]).Some? ==>
        calls[c].index >= 0 && calls[c].index != Taken(calls[d]).value
  {
    RunKeepsInv(sql, steps, s);
  }

  lemma {:induction false} NoCrashNoDrop<U>(sql: Sql<U>, steps: seq<Step>, s: State<U>)
    requires Crash !in steps && forall c :: c in s.calls ==> !s.calls[c].Dropped?
    ensures forall c :: c in RunSteps(sql, steps, s).calls ==> !RunSteps(sql, steps, s).calls[c].Dropped?
    decreases |steps|
  {
    if steps != [] {
      assert steps[0] in steps;
      NoCrashNoDrop(sql, steps[1..], Next(sql, steps[0], s));
    }
  }

  // Without crashes and with no call in flight, the indices returned are exactly 0 up to the
  // counter, each by one call.
  lemma GapFree<U>(sql: Sql<U>, steps: seq<Step>, s: State<U>, v: I64)
    requires IsFresh(s) && Crash !in steps
    ensures var s' := RunSteps(sql, steps, s);
      (forall c :: c in s'.calls ==> s'.calls[c].Returned? || s'.calls[c].Failed?) ==>
        ((exists c :: c in s'.calls && s'.calls[c] == Returned(v)) <==> 0 <= v <= Limit(s'.logDb.kv))
  {
    RunKeepsInv(sql, steps, s);
    NoCrashNoDrop(sql, steps, s);
    var s' := RunSteps(sql, steps, s);
    if 0 <= v <= Limit(s'.logDb.kv) {
      assert IsTaken(s', v);
    }
  }

  // ---- An install on a shared handle replaces the counter ----

  // The index the next UPDATE, or the next UPDATE and INSERT, would give.
  function NextIndexOf(kv: map<Key, Value>): int {
    Limit(kv) + 1
  }

  // The next index was already handed out exactly when the received counter is behind.
  lemma InstallReuse<U>(s: State<U>, received: Db<U>)
    requires Inv(s)
    requires SnapshotIndexKey in received.kv ==>
      received.kv[SnapshotIndexKey].Counter? && 0 <= received.kv[SnapshotIndexKey].n < I64_MAX
    ensures (exists c :: c in s.calls && Taken(s.calls[c]) == Some(NextIndexOf(received.kv)))
      <==> Limit(received.kv) < Limit(s.logDb.kv)
    ensures match BumpedValue(received) {
        case Ok(Some(v)) => v == NextIndexOf(received.kv)
        case Ok(None) => NextIndexOf(received.kv) == 0
        case Err => false
      }
  {
    if Limit(received.kv) < Limit(s.logDb.kv) {
      assert IsTaken(s, NextIndexOf(received.kv));
    }
  }

  // ---- Snapshot ids ----

  // Two builds never give their snapshots the same id, whatever they last applied, however
  // leader ids are printed, and across restarts.
  lemma SnapshotIdsDistinct<U>(
    sql: Sql<U>, steps: seq<Step>, s: State<U>, text: LeaderId -> string,
    c: nat, lastOfC: Option<LogId>, d: nat, lastOfD: Option<LogId>)
    requires IsFresh(s) && c != d
    ensures var calls := RunSteps(sql, steps, s).calls;
      c in calls && d in calls && calls[c].Returned? && calls[d].Returned? ==>
        SnapshotId(text, lastOfC, CastToU64(calls[c].index)) != SnapshotId(text, lastOfD, CastToU64(calls[d].index))
  {
    IndicesDistinct(sql, steps, s, c, d);
    IndicesDistinct(sql, steps, s, d, c);
    var calls := RunSteps(sql, steps, s).calls;
    if c in calls && d in calls && calls[c].Returned? && calls[d].Returned?
       && SnapshotId(text, lastOfC, CastToU64(calls[c].index)) == SnapshotId(text, lastOfD, CastToU64(calls[d].index)) {
      SnapshotIdInjective(text, lastOfC, calls[c].index, lastOfD, calls[d].index);
    }
  }
}
