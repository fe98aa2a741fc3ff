// Values shared by every component: integers of fixed width, log ids, entries,
// votes, memberships and snapshot metadata.
module RaftTypes {

  datatype Option<+T> = None | Some(value: T)

  datatype Result<+T> = Ok(value: T) | Err

  const I64_MAX: int := 0x7FFF_FFFF_FFFF_FFFF
  const U64_MAX: int := 0xFFFF_FFFF_FFFF_FFFF

  type U64 = x: int | 0 <= x <= U64_MAX
  type I64 = x: int | -I64_MAX - 1 <= x <= I64_MAX
  type Byte = x: int | 0 <= x < 256

  // Binding a u64 as an SQL parameter: rusqlite refuses values SQLite cannot hold.
  function BindU64(x: U64): Option<I64> {
    if x <= I64_MAX then Some(x) else None
  }

  // The Rust cast `x as u64`.
  function CastToU64(x: I64): (r: U64)
    ensures (r - x) % 0x1_0000_0000_0000_0000 == 0
  {
    if x >= 0 then x else x + U64_MAX + 1
  }

  datatype LeaderId = LeaderId(term: U64, nodeId: U64)

  datatype LogId = LogId(leaderId: LeaderId, index: U64)

  // The index that follows a log id; an absent id stands before index 0.
  function NextIndex(id: Option<LogId>): nat {
    match id
    case None => 0
    case Some(l) => l.index + 1
  }

  datatype Vote = Vote(term: U64, nodeId: U64, committed: bool)

  // `configs` are the joint quorum sets, `nodes` the address of every known node.
  datatype Membership = Membership(configs: seq<set<U64>>, nodes: map<U64, string>)

  datatype EffectiveMembership = EffectiveMembership(logId: Option<LogId>, membership: Membership)

  const DEFAULT_MEMBERSHIP := EffectiveMembership(None, Membership([], map[]))

  datatype Param =
    | Null
    | Bool(b: bool)
    | I64Param(i: I64)
    | F64Param(bits: U64)
    | Text(s: string)
    | Bytes(bytes: seq<Byte>)

  datatype Payload =
    | Blank
    | Normal(sql: string, params: seq<Param>)
    | MembershipChange(membership: Membership)

  datatype Entry = Entry(logId: LogId, payload: Payload)

  datatype SnapshotMeta = SnapshotMeta(
    lastLogId: Option<LogId>,
    lastMembership: EffectiveMembership,
    snapshotId: string)
}
