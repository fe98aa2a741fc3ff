// One store as a step system. A step is one committed statement or one write of an in-memory
// marker: of the apply loop, a running build, the log operations, the vote, or an install,
// or it is the death of the process followed by a reopen. Any list of steps is a run, so every
// interleaving and every crash point is covered, for separate handles and for a shared one.
//
// The Raft core is the environment: it applies the committed entries in index order, one at a
// time, and after a reopen it goes on from the entry after the persisted marker.
module Replica {
  import opened RaftTypes
  import opened Sqlite
  import opened StateMachine
  import opened SnapshotIds

  // How a database becomes bytes and back.
  datatype Codec<!U> = Codec(serialize: Db<U> -> seq<Byte>, deserialize: seq<Byte> -> Option<Db<U>>)

  ghost predicate Lawful<U(!new)>(c: Codec<U>) {
    forall db :: c.deserialize(c.serialize(db)) == Some(db)
  }

  // `log` is the list of committed entries, `empty` the user tables of a new database and
  // `leaderText` how a leader id is printed.
  datatype Env<!U> = Env(
    sql: Sql<U>, codec: Codec<U>, leaderText: LeaderId -> string, empty: U, log: seq<Entry>)

  ghost predicate ValidEnv<U>(env: Env<U>) {
    forall i :: 0 <= i < |env.log| ==> env.log[i].logId.index == i
  }

  // `shared`: the state machine uses the handle of `log.db`. `inMemory`: the separate data
  // database is `:memory:` and dies with the process.
  datatype Store<+U> = Store(shared: bool, inMemory: bool, logDb: Db<U>, dataDb: Db<U>)

  function Data<U>(s: Store<U>): Db<U> {
    if s.shared then s.logDb else s.dataDb
  }

  function WithData<U>(s: Store<U>, db: Db<U>): Store<U> {
    if s.shared then s.(logDb := db) else s.(dataDb := db)
  }

  predicate LosesData<U>(s: Store<U>) {
    !s.shared && s.inMemory
  }

  // Memory when it was last set other than by applying: at an open, which loads it from disk, or
  // when an install moved the data to `base` entries and left memory alone.
  datatype Since = Since(base: nat, applied: Option<LogId>, membership: EffectiveMembership, installed: bool)

  // When a build read the membership: entries settled in memory, entries missing from the data.
  datatype Seen = Seen(at: nat, missing: set<nat>, since: Since)

  // A running `build_snapshot`, by what it has done so far. `mine` says that the metadata row is
  // still its own, `own` that it was when the image was serialized; the image holds the effects of
  // the first `held` entries, `missing` excepted.
  datatype Builder<+U> =
    | Idle
    | SawApplied(applied: Option<LogId>)
    | SawMarkers(applied: Option<LogId>, membership: EffectiveMembership, seen: Seen)
    | NoCounter(applied: Option<LogId>, membership: EffectiveMembership, seen: Seen)
    | Titled(meta: SnapshotMeta, seen: Seen)
    | Described(meta: SnapshotMeta, seen: Seen, mine: bool)
    | Captured(meta: SnapshotMeta, seen: Seen, image: Db<U>, held: nat, missing: set<nat>, own: bool, mine: bool)

  datatype Published = Published(meta: SnapshotMeta, bytes: seq<Byte>)

  // A database file that SQLite no longer works on: loading an image leaves the connection on an
  // in-memory copy, and a reopen finds the file as it was.
  datatype Saved<+U> = Saved(db: Db<U>, next: nat, lost: set<nat>, ran: seq<nat>)

  // `next` is the entry being applied and `done` how many of its actions are done; `halted` says
  // its SQL was rejected, after which nothing is applied until a reopen. `installing` is the
  // metadata of an install that has loaded its image and not yet written its row. The fields from
  // `crashes` on are history, they influence no step: `ran` lists the SQL entries whose effect the
  // data holds, `lost` those it passed over, `torn` says that something came between the metadata
  // row and the last publication, `shrunk` that this one was shorter than the file it overwrote.
  datatype Replica<+U> = Replica(
    store: Store<U>,
    applied: Option<LogId>,
    membership: EffectiveMembership,
    next: nat,
    done: nat,
    halted: bool,
    builder: Builder<U>,
    file: Option<seq<Byte>>,
    onDisk: Option<Saved<U>>,
    installing: Option<SnapshotMeta>,
    crashes: nat,
    lost: set<nat>,
    ran: seq<nat>,
    since: Since,
    published: Option<Published>,
    torn: bool,
    shrunk: bool)

  datatype Step<+U> =
    | Apply
    | Build
    | WriteLog(stmt: Stmt)
    | SaveVote(vote: Vote)
    | Receive(meta: SnapshotMeta, image: Db<U>)
    | Record
    | Crash

  // ---- The steps ----

  function ApplyStep<U>(env: Env<U>, r: Replica<U>): Replica<U> {
    if r.halted || r.installing.Some? || r.next >= |env.log| then r
    else
      var actions := EntryActions(env.log[r.next]);
      if r.done >= |actions| then r
      else
        match Do(env.sql, actions[r.done], Sm(Data(r.store), r.applied, r.membership))
        case None => r.(halted := true)
        case Some(sm) =>
          r.(store := WithData(r.store, sm.db), applied := sm.applied, membership := sm.membership,
             next := if r.done + 1 == |actions| then r.next + 1 else r.next,
             done := if r.done + 1 == |actions| then 0 else r.done + 1,
             ran := if actions[r.done].Commit? && actions[r.done].stmt.UserSql? then r.ran + [r.next] else r.ran)
  }

  function MetaFor<U>(env: Env<U>, applied: Option<LogId>, m: EffectiveMembership, index: I64): SnapshotMeta {
    SnapshotMeta(applied, m, SnapshotId(env.leaderText, applied, CastToU64(index)))
  }

  // Opening without truncating: the new bytes, then whatever the old file had beyond them.
  function Overwrite(file: Option<seq<Byte>>, bytes: seq<Byte>): seq<Byte> {
    match file
    case None => bytes
    case Some(before) => if |before| <= |bytes| then bytes else bytes + before[|bytes|..]
  }

  // The check that the database is not empty is left out of the steps: it only reads, and it
  // always passes because the metadata row was just written.
  function BuildStep<U>(env: Env<U>, r: Replica<U>): Replica<U> {
    match r.builder
    case Idle => r.(builder := SawApplied(r.applied))
    case SawApplied(applied) =>
      r.(builder := SawMarkers(applied, r.membership, Seen(r.next, r.lost, r.since)))
    case SawMarkers(applied, m, seen) =>
      var r' := r.(store := r.store.(logDb := Bumped(r.store.logDb)));
      (match BumpedValue(r.store.logDb)
       case Err => r'.(builder := Idle)
       case Ok(None) => r'.(builder := NoCounter(applied, m, seen))
       case Ok(Some(n)) => r'.(builder := Titled(MetaFor(env, applied, m, n), seen)))
    case NoCounter(applied, m, seen) =>
      (match Exec(env.sql, InsertCounter, r.store.logDb)
       case None => r.(builder := Idle)
       case Some(db) =>
         r.(store := r.store.(logDb := db), builder := Titled(MetaFor(env, applied, m, 0), seen)))
    case Titled(meta, seen) =>
      r.(store := WithData(r.store, WithMeta(Data(r.store), meta)), builder := Described(meta, seen, true))
    case Described(meta, seen, mine) =>
      r.(builder := Captured(meta, seen, Data(r.store), Settled(r), r.lost, mine, mine))
    case Captured(meta, _, image, _, _, _, mine) =>
      var bytes := env.codec.serialize(image);
      r.(builder := Idle, file := Some(Overwrite(r.file, bytes)),
         published := Some(Published(meta, bytes)), torn := !mine,
         shrunk := r.file.Some? && |bytes| < |r.file.value|)
  }

  function WithMeta<U>(db: Db<U>, meta: SnapshotMeta): Db<U> {
    db.(kv := db.kv[SnapshotMetaKey := MetaBlob(meta)])
  }

  // The statements of appending, truncating and purging.
  predicate IsLogWrite(stmt: Stmt) {
    match stmt
    case UpsertRow(_, _, _, _) => true
    case DeleteRowsFrom(_) => true
    case DeleteRowsUpTo(_) => true
    case Upsert(key, value) => key == LastPurgedIdKey && value.LogIdBlob?
    case _ => false
  }

  function WriteLogStep<U>(env: Env<U>, stmt: Stmt, r: Replica<U>): Replica<U> {
    if !IsLogWrite(stmt) then r
    else match Exec(env.sql, stmt, r.store.logDb)
      case None => r
      case Some(db) => r.(store := r.store.(logDb := db))
  }

  function SaveVoteStep<U>(v: Vote, r: Replica<U>): Replica<U> {
    var db := r.store.logDb;
    r.(store := r.store.(logDb := db.(kv := db.kv[VoteKey := VoteBlob(v)])))
  }

  // ---- Installing ----

  // The Raft core installs between entries, a snapshot of no less than it has applied. The image
  // holds that many entries; `SnapshotShipping` says of which builds this is true.
  ghost predicate CanReceive<U>(env: Env<U>, r: Replica<U>, meta: SnapshotMeta, image: Db<U>) {
    var p := NextIndex(meta.lastLogId);
    && r.installing.None? && r.done == 0 && !r.halted
    && r.next <= p <= |env.log|
    && meta.lastLogId == IdAt(env, p)
    && Load(image).Ok? && FetchMeta(image).Ok?
    && Load(image).value.applied == IdAt(env, p)
    && ReplayWithout(env, {}, p) == Some(View(Load(image).value))
  }

  // The SQL entries among the first `n`.
  function SqlBelow(log: seq<Entry>, n: nat): seq<nat>
    requires n <= |log|
  {
    if n == 0 then []
    else SqlBelow(log, n - 1) + if log[n - 1].payload.Normal? then [n - 1] else []
  }

  function Unmine<U>(b: Builder<U>): Builder<U> {
    if Describing(b) then b.(mine := false) else b
  }

  // Loading the image: memory stays as it is, the file that held the data is left behind.
  ghost function ReceiveStep<U>(env: Env<U>, meta: SnapshotMeta, image: Db<U>, r: Replica<U>): Replica<U> {
    if !CanReceive(env, r, meta, image) then r
    else
      var p := NextIndex(meta.lastLogId);
      r.(store := WithData(r.store, image), next := p, builder := Unmine(r.builder),
         onDisk := if LosesData(r.store) || r.onDisk.Some? then r.onDisk
                   else Some(Saved(Data(r.store), r.next, r.lost, r.ran)),
         installing := Some(meta), lost := {}, ran := SqlBelow(env.log, p),
         since := Since(p, r.applied, r.membership, true), torn := true)
  }

  // Writing the metadata row.
  function RecordStep<U>(r: Replica<U>): Replica<U> {
    if r.installing.None? then r
    else
      r.(store := WithData(r.store, WithMeta(Data(r.store), r.installing.value)),
         builder := Unmine(r.builder), installing := None, torn := true)
  }

  // ---- Dying and reopening ----

  function EmptyDb<U>(empty: U): Db<U> {
    Db(map[], None, empty)
  }

  // The entry whose marker is on disk while its effect is not.
  predicate InGap<U>(env: Env<U>, r: Replica<U>) {
    r.next < |env.log| && 1 <= r.done <= 2 && !env.log[r.next].payload.Blank?
  }

  predicate Describing<U>(b: Builder<U>) {
    b.Described? || b.Captured?
  }

  // The database that a reopen finds, with its history.
  function Found<U>(env: Env<U>, r: Replica<U>): Saved<U> {
    if LosesData(r.store) then Saved(EmptyDb(env.empty), 0, {}, [])
    else if r.onDisk.Some? then r.onDisk.value
    else Saved(Data(r.store), Marked(r), if InGap(env, r) then r.lost + {r.next} else r.lost, r.ran)
  }

  function CrashStep<U>(env: Env<U>, r: Replica<U>): Replica<U> {
    var found := Found(env, r);
    match Load(found.db)
    case Err => r
    case Ok(sm) =>
      var n := NextIndex(sm.applied);
      r.(store := WithData(r.store, found.db), applied := sm.applied, membership := sm.membership,
         next := n, done := 0, halted := false, builder := Idle, onDisk := None, installing := None,
         crashes := r.crashes + 1, lost := found.lost, ran := found.ran,
         since := Since(n, sm.applied, sm.membership, false),
         torn := r.torn || LosesData(r.store) || r.onDisk.Some? || Describing(r.builder))
  }

  ghost function Next<U>(env: Env<U>, step: Step<U>, r: Replica<U>): Replica<U> {
    match step
    case Apply => ApplyStep(env, r)
    case Build => BuildStep(env, r)
    case WriteLog(stmt) => WriteLogStep(env, stmt, r)
    case SaveVote(v) => SaveVoteStep(v, r)
    case Receive(meta, image) => ReceiveStep(env, meta, image, r)
    case Record => RecordStep(r)
    case Crash => CrashStep(env, r)
  }

  ghost function RunSteps<U>(env: Env<U>, steps: seq<Step<U>>, r: Replica<U>): Replica<U> {
    if steps == [] then r else RunSteps(env, steps[1..], Next(env, steps[0], r))
  }

  // A store opened on empty files.
  function Fresh<U>(env: Env<U>, shared: bool, inMemory: bool): Replica<U> {
    Replica(Store(shared, inMemory, WithLogTable(EmptyDb(env.empty)), EmptyDb(env.empty)),
            None, DEFAULT_MEMBERSHIP, 0, 0, false, Idle, None, None, None,
            0, {}, [], Since(0, None, DEFAULT_MEMBERSHIP, false), None, false, false)
  }

  // A build that nothing interleaves with: from `Idle` until it has published or failed.
  function SoloBuild<U>(env: Env<U>, r: Replica<U>): Replica<U> {
    var counted := BuildStep(env, BuildStep(env, BuildStep(env, r)));
    var titled := if counted.builder.NoCounter? then BuildStep(env, counted) else counted;
    if titled.builder.Titled? then BuildStep(env, BuildStep(env, BuildStep(env, titled))) else titled
  }

  // ---- The reference: replay of a prefix that leaves some entries out ----

  function ReplayWithout<U>(env: Env<U>, lost: set<nat>, n: nat): Option<Model<U>>
    requires n <= |env.log|
  {
    if n == 0 then Some(Model(env.empty, DEFAULT_MEMBERSHIP))
    else match ReplayWithout(env, lost, n - 1)
      case None => None
      case Some(m) => if n - 1 in lost then Some(m) else Effect(env.sql, env.log[n - 1], m)
  }

  function IdAt<U>(env: Env<U>, n: nat): Option<LogId>
    requires n <= |env.log|
  {
    if n == 0 then None else Some(env.log[n - 1].logId)
  }

  // ---- The invariant ----

  // How many entries the persisted marker covers, the marker in memory covers, and have their
  // effect in the database.
  function Marked<U>(r: Replica<U>): nat {
    if r.done >= 1 then r.next + 1 else r.next
  }

  function Remembered<U>(r: Replica<U>): nat {
    if r.done >= 2 then r.next + 1 else r.next
  }

  function Settled<U>(r: Replica<U>): nat {
    if r.done >= 3 then r.next + 1 else r.next
  }

  ghost predicate PositionInv<U>(env: Env<U>, r: Replica<U>) {
    && r.next <= |env.log|
    && (r.next == |env.log| ==> r.done == 0)
    && (r.next < |env.log| ==> r.done < |EntryActions(env.log[r.next])|)
    && (r.halted ==> r.next < |env.log| && r.done == 2 && env.log[r.next].payload.Normal?)
  }

  // Disk holds the marker and the effect of exactly the entries the position says; memory lags
  // behind disk by at most the write in progress.
  ghost predicate DiskInv<U>(env: Env<U>, r: Replica<U>)
    requires PositionInv(env, r)
  {
    var db := Data(r.store);
    && FetchLogId(LastLogKey, db) == Ok(IdAt(env, Marked(r)))
    && LoadMembership(db).Ok?
    && ReplayWithout(env, r.lost, Settled(r)) == Some(Model(db.user, LoadMembership(db).value))
  }

  ghost predicate AppliedFits<U>(env: Env<U>, applied: Option<LogId>, bound: nat) {
    && NextIndex(applied) <= |env.log|
    && NextIndex(applied) <= bound
    && applied == IdAt(env, NextIndex(applied))
  }

  ghost predicate SinceFits<U>(env: Env<U>, since: Since, lost: set<nat>, n: nat) {
    && since.base <= n <= |env.log|
    && AppliedFits(env, since.applied, since.base)
    && ReplayWithout(env, lost, since.base).Some?
    && (!since.installed ==>
          && since.applied == IdAt(env, since.base)
          && since.membership == ReplayWithout(env, lost, since.base).value.membership)
  }

  ghost predicate ChangedIn(log: seq<Entry>, first: nat, n: nat)
    requires n <= |log|
  {
    exists i | first <= i < n :: log[i].payload.MembershipChange?
  }

  // The membership that memory shows after `n` entries: the one in force if an entry has changed it
  // since, and what it was before if none has.
  ghost predicate Recalls<U>(env: Env<U>, since: Since, lost: set<nat>, n: nat, m: EffectiveMembership) {
    && SinceFits(env, since, lost, n)
    && ReplayWithout(env, lost, n).Some?
    && m == if ChangedIn(env.log, since.base, n) then ReplayWithout(env, lost, n).value.membership
            else since.membership
  }

  // Memory lags behind disk by the write in progress, and after an install until it is written.
  ghost predicate MemoryInv<U>(env: Env<U>, r: Replica<U>)
    requires PositionInv(env, r)
  {
    && Recalls(env, r.since, r.lost, r.next, r.membership)
    && r.applied == if Remembered(r) > r.since.base then IdAt(env, Remembered(r)) else r.since.applied
  }

  ghost predicate HistoryOf<U>(env: Env<U>, next: nat, lost: set<nat>, crashes: nat, ran: seq<nat>) {
    && next <= |env.log|
    && (forall i :: i in lost ==> i < next)
    && |lost| <= crashes
    && (forall i, j :: 0 <= i < j < |ran| ==> ran[i] < ran[j])
    && (forall i: nat :: i in ran <==> i < next && env.log[i].payload.Normal? && i !in lost)
  }

  // The file left behind was at rest.
  ghost predicate SavedInv<U>(env: Env<U>, s: Saved<U>, crashes: nat) {
    && HistoryOf(env, s.next, s.lost, crashes, s.ran)
    && FetchLogId(LastLogKey, s.db) == Ok(IdAt(env, s.next))
    && LoadMembership(s.db).Ok? && FetchMeta(s.db).Ok?
    && ReplayWithout(env, s.lost, s.next) == Some(Model(s.db.user, LoadMembership(s.db).value))
  }

  ghost predicate HistoryInv<U>(env: Env<U>, r: Replica<U>) {
    && HistoryOf(env, r.next, r.lost, r.crashes, r.ran)
    && (r.onDisk.Some? ==> SavedInv(env, r.onDisk.value, r.crashes) && !LosesData(r.store))
    && (r.installing.Some? ==> r.done == 0 && !r.halted)
  }

  ghost predicate SeenFits<U>(env: Env<U>, applied: Option<LogId>, m: EffectiveMembership, seen: Seen) {
    && AppliedFits(env, applied, seen.at + 1)
    && Recalls(env, seen.since, seen.missing, seen.at, m)
  }

  // What a serialized image holds: a marker covering `p` entries, and the effect of the first
  // `p` entries or of the first `p - 1`.
  ghost predicate ImageFits<U>(
    env: Env<U>, meta: SnapshotMeta, image: Db<U>, held: nat, missing: set<nat>, own: bool) {
    && FetchMeta(image).Ok?
    && (own ==> FetchMeta(image).value == Some(meta))
    && FetchLogId(LastLogKey, image).Ok?
    && LoadMembership(image).Ok?
    && var p := NextIndex(FetchLogId(LastLogKey, image).value);
       && NextIndex(meta.lastLogId) <= p <= |env.log|
       && FetchLogId(LastLogKey, image).value == IdAt(env, p)
       && held <= p <= held + 1
       && ReplayWithout(env, missing, held) == Some(Model(image.user, LoadMembership(image).value))
  }

  ghost predicate BuilderInv<U>(env: Env<U>, r: Replica<U>) {
    var bound := Remembered(r);
    match r.builder
    case Idle => true
    case SawApplied(applied) => AppliedFits(env, applied, bound)
    case SawMarkers(applied, m, seen) => AppliedFits(env, applied, bound) && SeenFits(env, applied, m, seen)
    case NoCounter(applied, m, seen) => AppliedFits(env, applied, bound) && SeenFits(env, applied, m, seen)
    case Titled(meta, seen) => MetaFits(env, meta, seen, bound)
    case Described(meta, seen, mine) =>
      && MetaFits(env, meta, seen, bound)
      && (mine ==> FetchMeta(Data(r.store)) == Ok(Some(meta)))
    case Captured(meta, seen, image, held, missing, own, mine) =>
      && MetaFits(env, meta, seen, bound)
      && (mine ==> FetchMeta(Data(r.store)) == Ok(Some(meta)))
      && ImageFits(env, meta, image, held, missing, own)
  }

  ghost predicate MetaFits<U>(env: Env<U>, meta: SnapshotMeta, seen: Seen, bound: nat) {
    && AppliedFits(env, meta.lastLogId, bound)
    && SeenFits(env, meta.lastLogId, meta.lastMembership, seen)
  }

  // The snapshot file and the metadata row, which are written separately.
  ghost predicate FileInv<U>(r: Replica<U>) {
    && (r.published.None? ==> r.file.None?)
    && (r.published.Some? ==> r.file.Some? && (r.file.value == r.published.value.bytes <==> !r.shrunk))
    && FetchMeta(Data(r.store)).Ok?
    && (!r.torn && !Describing(r.builder) ==>
          FetchMeta(Data(r.store)).value == if r.published.Some? then Some(r.published.value.meta) else None)
  }

  ghost predicate Inv<U>(env: Env<U>, r: Replica<U>) {
    && PositionInv(env, r)
    && DiskInv(env, r)
    && MemoryInv(env, r)
    && HistoryInv(env, r)
    && BuilderInv(env, r)
    && FileInv(r)
  }
}
