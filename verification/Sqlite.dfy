// The database value, and the meaning of each SQL statement the store issues.
//
// One statement is one task on a storage handle, so it is atomic: it either takes effect
// as a whole or leaves the database as it was. What user SQL does to the user tables is a
// parameter: any function from a statement and the tables to new tables, or None when
// SQLite rejects the statement. User SQL is taken not to touch the two `replicat_*` tables.
module Sqlite {
  import opened RaftTypes

  type Sql<!U> = (string, seq<Param>, U) -> Option<U>

  datatype Key =
    | SnapshotMetaKey
    | LastMembershipKey
    | LastLogKey
    | VoteKey
    | SnapshotIndexKey
    | LastPurgedIdKey

  function KeyName(key: Key): string {
    match key
    case SnapshotMetaKey => "snapshot_meta"
    case LastMembershipKey => "last_membership"
    case LastLogKey => "last_applied_log"
    case VoteKey => "vote"
    case SnapshotIndexKey => "snapshot_index"
    case LastPurgedIdKey => "last_purged_id"
  }

  // Keys are primary keys of one table, so distinct rows need distinct names.
  lemma KeyNamesDistinct(a: Key, b: Key)
    ensures KeyName(a) == KeyName(b) <==> a == b
  {
    if a != b {
      assert |KeyName(a)| != |KeyName(b)| || KeyName(a)[0] != KeyName(b)[0];
    }
  }

  // A column value: the snapshot counter, or a serialized record. `RealCounter` is what
  // SQLite stores when adding one to the largest 64-bit integer.
  datatype Value =
    | Counter(n: I64)
    | RealCounter
    | LogIdBlob(logId: LogId)
    | MembershipBlob(membership: EffectiveMembership)
    | VoteBlob(vote: Vote)
    | MetaBlob(meta: SnapshotMeta)

  datatype Row = Row(nodeId: I64, term: I64, entry: Entry)

  // `log` is None when the table `replicat_raft_logs` does not exist.
  datatype Db<+U> = Db(kv: map<Key, Value>, log: Option<map<I64, Row>>, user: U)

  datatype Stmt =
    | Upsert(key: Key, value: Value)
    | BumpCounter
    | InsertCounter
    | UpsertRow(nodeId: U64, index: U64, term: U64, entry: Entry)
    | DeleteRowsFrom(index: U64)
    | DeleteRowsUpTo(index: U64)
    | UserSql(text: string, params: seq<Param>)

  // The database after a statement, or None when SQLite reports an error.
  function Exec<U>(sql: Sql<U>, stmt: Stmt, db: Db<U>): Option<Db<U>> {
    match stmt
    case Upsert(key, value) => Some(db.(kv := db.kv[key := value]))
    case BumpCounter => Some(Bumped(db))
    case InsertCounter =>
      if SnapshotIndexKey in db.kv then None
      else Some(db.(kv := db.kv[SnapshotIndexKey := Counter(0)]))
    case UpsertRow(nodeId, index, term, entry) =>
      if db.log.Some? && BindU64(nodeId).Some? && BindU64(index).Some? && BindU64(term).Some? then
        Some(db.(log := Some(db.log.value[index := Row(nodeId, term, entry)])))
      else None
    case DeleteRowsFrom(index) =>
      if db.log.Some? && BindU64(index).Some? then
        Some(db.(log := Some(RowsBelow(db.log.value, index))))
      else None
    case DeleteRowsUpTo(index) =>
      if db.log.Some? && BindU64(index).Some? then
        Some(db.(log := Some(RowsAbove(db.log.value, index))))
      else None
    case UserSql(text, params) =>
      match sql(text, params, db.user)
      case None => None
      case Some(user) => Some(db.(user := user))
  }

  function RowsBelow(rows: map<I64, Row>, index: U64): map<I64, Row> {
    map k | k in rows && k < index :: rows[k]
  }

  function RowsAbove(rows: map<I64, Row>, index: U64): map<I64, Row> {
    map k | k in rows && k > index :: rows[k]
  }

  // UPDATE .. SET value = value + 1: nothing to update when the row is missing. Only counters are
  // ever stored under this key.
  function Bumped<U>(db: Db<U>): Db<U> {
    if SnapshotIndexKey !in db.kv then db
    else match db.kv[SnapshotIndexKey]
      case Counter(n) =>
        db.(kv := db.kv[SnapshotIndexKey := if n < I64_MAX then Counter(n + 1) else RealCounter])
      case _ => db.(kv := db.kv[SnapshotIndexKey := RealCounter])
  }

  // .. RETURNING value, read as an optional i64: no row, a number, or a type error.
  function BumpedValue<U>(db: Db<U>): Result<Option<I64>> {
    if SnapshotIndexKey !in db.kv then Ok(None)
    else match Bumped(db).kv[SnapshotIndexKey]
      case Counter(n) => Ok(Some(n))
      case _ => Err
  }

  // The greatest index the counter has handed out, -1 when there is none.
  function Limit(kv: map<Key, Value>): int {
    if SnapshotIndexKey !in kv then -1
    else match kv[SnapshotIndexKey]
      case Counter(n) => n
      case _ => I64_MAX
  }

  // CREATE TABLE IF NOT EXISTS for the log table. The key-value table of an opened
  // database always exists, so creating it again changes nothing.
  function WithLogTable<U>(db: Db<U>): Db<U> {
    if db.log.Some? then db else db.(log := Some(map[]))
  }

  // Point lookups of the key-value table; a value of another kind fails to decode.
  function FetchLogId<U>(key: Key, db: Db<U>): Result<Option<LogId>> {
    if key !in db.kv then Ok(None)
    else if db.kv[key].LogIdBlob? then Ok(Some(db.kv[key].logId))
    else Err
  }

  function FetchMembership<U>(db: Db<U>): Result<Option<EffectiveMembership>> {
    if LastMembershipKey !in db.kv then Ok(None)
    else if db.kv[LastMembershipKey].MembershipBlob? then Ok(Some(db.kv[LastMembershipKey].membership))
    else Err
  }

  function FetchVote<U>(db: Db<U>): Result<Option<Vote>> {
    if VoteKey !in db.kv then Ok(None)
    else if db.kv[VoteKey].VoteBlob? then Ok(Some(db.kv[VoteKey].vote))
    else Err
  }

  function FetchMeta<U>(db: Db<U>): Result<Option<SnapshotMeta>> {
    if SnapshotMetaKey !in db.kv then Ok(None)
    else if db.kv[SnapshotMetaKey].MetaBlob? then Ok(Some(db.kv[SnapshotMetaKey].meta))
    else Err
  }

  // A program is the list of statements an operation issues, each committed on its own.
  // Running it stops at the first error; a crash leaves what a prefix of it produced.
  datatype Outcome<+U> = Outcome(db: Db<U>, ok: bool)

  function RunProgram<U>(sql: Sql<U>, program: seq<Stmt>, db: Db<U>): Outcome<U> {
    if program == [] then Outcome(db, true)
    else match Exec(sql, program[0], db)
      case None => Outcome(db, false)
      case Some(db') => RunProgram(sql, program[1..], db')
  }
}
