// The replicated state machine: applying an entry is a list of small actions, each one either a
// committed statement on the data handle or a write of an in-memory marker. The markers
// `last_applied_log` and `last_membership` live in the same database as the user tables.
module StateMachine {
  import opened RaftTypes
  import opened Sqlite

  datatype Sm<+U> = Sm(db: Db<U>, applied: Option<LogId>, membership: EffectiveMembership)

  datatype Action =
    | Commit(stmt: Stmt)
    | RememberApplied(id: LogId)
    | RememberMembership(membership: EffectiveMembership)

  // The marker is advanced first, then the entry takes effect.
  function EntryActions(e: Entry): (r: seq<Action>)
    ensures 2 <= |r| <= 4
  {
    [Commit(Upsert(LastLogKey, LogIdBlob(e.logId))), RememberApplied(e.logId)] +
    match e.payload
    case Blank => []
    case Normal(text, params) => [Commit(UserSql(text, params))]
    case MembershipChange(m) =>
      var em := EffectiveMembership(Some(e.logId), m);
      [Commit(Upsert(LastMembershipKey, MembershipBlob(em))), RememberMembership(em)]
  }

  function BatchActions(entries: seq<Entry>): seq<Action> {
    if entries == [] then [] else EntryActions(entries[0]) + BatchActions(entries[1..])
  }

  // None: the statement failed, nothing changed and the call returns the error.
  function Do<U>(sql: Sql<U>, a: Action, sm: Sm<U>): Option<Sm<U>> {
    match a
    case Commit(stmt) =>
      (match Exec(sql, stmt, sm.db)
       case None => None
       case Some(db) => Some(sm.(db := db)))
    case RememberApplied(id) => Some(sm.(applied := Some(id)))
    case RememberMembership(m) => Some(sm.(membership := m))
  }

  datatype Run<+U> = Run(sm: Sm<U>, ok: bool)

  function RunActions<U>(sql: Sql<U>, actions: seq<Action>, sm: Sm<U>): Run<U> {
    if actions == [] then Run(sm, true)
    else match Do(sql, actions[0], sm)
      case None => Run(sm, false)
      case Some(sm') => RunActions(sql, actions[1..], sm')
  }

  // `create_state_machine`: memory starts from the persisted markers.
  function LoadMembership<U>(db: Db<U>): Result<EffectiveMembership> {
    match FetchMembership(db)
    case Err => Err
    case Ok(None) => Ok(DEFAULT_MEMBERSHIP)
    case Ok(Some(m)) => Ok(m)
  }

  function Load<U>(db: Db<U>): Result<Sm<U>> {
    match (FetchLogId(LastLogKey, db), LoadMembership(db))
    case (Ok(applied), Ok(membership)) => Ok(Sm(db, applied, membership))
    case _ => Err
  }

  predicate AppliedInSync<U(==)>(sm: Sm<U>) {
    FetchLogId(LastLogKey, sm.db) == Ok(sm.applied)
  }

  predicate MembershipInSync<U(==)>(sm: Sm<U>) {
    LoadMembership(sm.db) == Ok(sm.membership)
  }

  // ---- The reference: what a list of entries means, with no markers and no statements ----

  datatype Model<+U> = Model(user: U, membership: EffectiveMembership)

  function Effect<U>(sql: Sql<U>, e: Entry, m: Model<U>): Option<Model<U>> {
    match e.payload
    case Blank => Some(m)
    case Normal(text, params) =>
      (match sql(text, params, m.user)
       case None => None
       case Some(user) => Some(m.(user := user)))
    case MembershipChange(ms) => Some(m.(membership := EffectiveMembership(Some(e.logId), ms)))
  }

  function Replay<U>(sql: Sql<U>, entries: seq<Entry>, m: Model<U>): Option<Model<U>> {
    if entries == [] then Some(m)
    else match Effect(sql, entries[0], m)
      case None => None
      case Some(m') => Replay(sql, entries[1..], m')
  }

  // The number of leading entries whose SQL is accepted.
  function AcceptedPrefix<U>(sql: Sql<U>, entries: seq<Entry>, m: Model<U>): (n: nat)
    ensures n <= |entries|
  {
    if entries == [] || Effect(sql, entries[0], m).None? then 0
    else 1 + AcceptedPrefix(sql, entries[1..], Effect(sql, entries[0], m).value)
  }

  function LastIdOf(entries: seq<Entry>, none: Option<LogId>): Option<LogId> {
    if entries == [] then none else Some(entries[|entries| - 1].logId)
  }

  function View<U>(sm: Sm<U>): Model<U> {
    Model(sm.db.user, sm.membership)
  }

  // ---- Applying a batch ----

  lemma {:induction false} RunAppend<U>(sql: Sql<U>, a: seq<Action>, b: seq<Action>, sm: Sm<U>)
    ensures RunActions(sql, a + b, sm)
      == if RunActions(sql, a, sm).ok then RunActions(sql, b, RunActions(sql, a, sm).sm)
         else RunActions(sql, a, sm)
    decreases |a|
  {
    if a == [] {
      assert a + b == b;
    } else {
      assert (a + b)[1..] == a[1..] + b;
      if Do(sql, a[0], sm).Some? { RunAppend(sql, a[1..], b, Do(sql, a[0], sm).value); }
    }
  }

  lemma {:induction false} BatchAppend(xs: seq<Entry>, ys: seq<Entry>)
    ensures BatchActions(xs + ys) == BatchActions(xs) + BatchActions(ys)
  {
    if xs == [] {
      assert xs + ys == ys;
    } else {
      assert (xs + ys)[1..] == xs[1..] + ys;
      BatchAppend(xs[1..], ys);
    }
  }

  // How the batches are cut does not matter: applying xs and then ys is applying xs + ys.
  lemma BatchingIrrelevant<U>(sql: Sql<U>, xs: seq<Entry>, ys: seq<Entry>, sm: Sm<U>)
    ensures RunActions(sql, BatchActions(xs + ys), sm)
      == var first := RunActions(sql, BatchActions(xs), sm);
         if first.ok then RunActions(sql, BatchActions(ys), first.sm) else first
  {
    BatchAppend(xs, ys);
    RunAppend(sql, BatchActions(xs), BatchActions(ys), sm);
  }

  // One entry: it fails exactly when its SQL is rejected, and even then the marker has moved.
  lemma EntryRun<U>(sql: Sql<U>, e: Entry, sm: Sm<U>)
    ensures var r := RunActions(sql, EntryActions(e), sm);
      && (r.ok <==> Effect(sql, e, View(sm)).Some?)
      && r.sm.applied == Some(e.logId) && AppliedInSync(r.sm)
      && View(r.sm) == (if r.ok then Effect(sql, e, View(sm)).value else View(sm))
      && (MembershipInSync(sm) ==> MembershipInSync(r.sm))
      && OtherKeysKept(sm.db, r.sm.db)
  {
    var acts := EntryActions(e);
    var sm1 := Do(sql, acts[0], sm).value;
    var sm2 := Do(sql, acts[1], sm1).value;
    assert acts[1..][1..] == acts[2..];
    assert RunActions(sql, acts, sm) == RunActions(sql, acts[2..], sm2);
    match e.payload
    case Blank =>
    case Normal(text, params) =>
      var act := Commit(UserSql(text, params));
      assert acts[2..] == [act];
      assert [act][1..] == [];
      assert RunActions(sql, [act], sm2)
          == if Do(sql, act, sm2).Some? then Run(Do(sql, act, sm2).value, true) else Run(sm2, false);
    case MembershipChange(m) =>
      var sm3 := Do(sql, acts[2], sm2).value;
      assert acts[2..][1..] == [acts[3]];
      assert [acts[3]][1..] == [];
      var sm4 := Do(sql, acts[3], sm3).value;
      assert RunActions(sql, [acts[3]], sm3) == Run(sm4, true);
      assert RunActions(sql, acts[2..], sm2) == Run(sm4, true);
  }

  // Applying touches the two marker keys and the user tables, nothing else.
  predicate OtherKeysKept<U>(db: Db<U>, db': Db<U>) {
    && db'.log == db.log
    && (forall k :: k != LastLogKey && k != LastMembershipKey ==>
        (k in db'.kv <==> k in db.kv) && (k in db.kv ==> db'.kv[k] == db.kv[k]))
  }

  lemma KeptTwice<U>(a: Db<U>, b: Db<U>, c: Db<U>)
    ensures OtherKeysKept(a, a)
    ensures OtherKeysKept(a, b) && OtherKeysKept(b, c) ==> OtherKeysKept(a, c)
  {
  }

  // `apply_to_state_machine` for every batch: the entries before the first rejected one take
  // effect in order, and the marker stands at the last entry touched, the rejected one included.
  lemma {:induction false} ApplyBatch<U>(sql: Sql<U>, entries: seq<Entry>, sm: Sm<U>)
    ensures var r := RunActions(sql, BatchActions(entries), sm);
      var n := AcceptedPrefix(sql, entries, View(sm));
      var touched := entries[..if n == |entries| then n else n + 1];
      && (r.ok <==> n == |entries|)
      && Replay(sql, entries[..n], View(sm)) == Some(View(r.sm))
      && r.sm.applied == LastIdOf(touched, sm.applied)
      && (AppliedInSync(sm) || touched != [] ==> AppliedInSync(r.sm))
      && (MembershipInSync(sm) ==> MembershipInSync(r.sm))
      && OtherKeysKept(sm.db, r.sm.db)
    decreases |entries|
  {
    KeptTwice(sm.db, sm.db, sm.db);
    if entries != [] {
      var e, rest := entries[0], entries[1..];
      EntryRun(sql, e, sm);
      RunAppend(sql, EntryActions(e), BatchActions(rest), sm);
      hide Effect, EntryActions, AppliedInSync, MembershipInSync, OtherKeysKept;
      var r := RunActions(sql, EntryActions(e), sm);
      if r.ok {
        ApplyBatch(sql, rest, r.sm);
        KeptTwice(sm.db, r.sm.db, RunActions(sql, BatchActions(rest), r.sm).sm.db);
        var n := AcceptedPrefix(sql, rest, View(r.sm));
        assert entries[..n + 1][1..] == rest[..n];
        var touched := rest[..if n == |rest| then n else n + 1];
        assert entries[..|touched| + 1] == [e] + touched;
      }
    }
  }

  // The membership in force is the one of the last membership entry, tagged with its own log id;
  // without such an entry it is the one before.
  ghost predicate IsLatestMembership(
    entries: seq<Entry>, before: EffectiveMembership, after: EffectiveMembership) {
    || ((forall i :: 0 <= i < |entries| ==> !entries[i].payload.MembershipChange?) && after == before)
    || (exists i | 0 <= i < |entries| && IsLastChange(entries, i) ::
          after == EffectiveMembership(Some(entries[i].logId), entries[i].payload.membership))
  }

  ghost predicate IsLastChange(entries: seq<Entry>, i: nat)
    requires i < |entries|
  {
    && entries[i].payload.MembershipChange?
    && forall j :: i < j < |entries| ==> !entries[j].payload.MembershipChange?
  }

  lemma {:induction false} MembershipIsLatest<U>(sql: Sql<U>, entries: seq<Entry>, m: Model<U>)
    requires Replay(sql, entries, m).Some?
    ensures IsLatestMembership(entries, m.membership, Replay(sql, entries, m).value.membership)
    decreases |entries|
  {
    if entries != [] {
      var m', rest := Effect(sql, entries[0], m).value, entries[1..];
      MembershipIsLatest(sql, rest, m');
      var after := Replay(sql, rest, m').value.membership;
      if i :| 0 <= i < |rest| && IsLastChange(rest, i)
              && after == EffectiveMembership(Some(rest[i].logId), rest[i].payload.membership) {
        assert entries[i + 1] == rest[i];
        assert forall j :: i + 1 < j < |entries| ==> entries[j] == rest[j - 1];
        assert IsLastChange(entries, i + 1);
      } else {
        assert forall j :: 0 < j < |entries| ==> entries[j] == rest[j - 1];
        if entries[0].payload.MembershipChange? { assert IsLastChange(entries, 0); }
      }
    }
  }
}
