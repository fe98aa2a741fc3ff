// The text of a snapshot id, and how it is read back.
module SnapshotIds {
  import opened RaftTypes

  function Digit(d: nat): char
    requires d < 10
  {
    (48 + d) as char
  }

  function Decimal(n: nat): string {
    if n < 10 then [Digit(n)] else Decimal(n / 10) + [Digit(n % 10)]
  }

  function SnapshotId(leaderText: LeaderId -> string, applied: Option<LogId>, index: nat): string {
    match applied
    case Some(id) => leaderText(id.leaderId) + "-" + Decimal(id.index) + "-" + Decimal(index)
    case None => "--" + Decimal(index)
  }

  lemma {:induction false} DecimalDigits(n: nat)
    ensures |Decimal(n)| >= 1
    ensures forall i :: 0 <= i < |Decimal(n)| ==> '0' <= Decimal(n)[i] <= '9'
  {
    if n >= 10 { DecimalDigits(n / 10); }
  }

  lemma SplitDecimal(n: nat)
    ensures var s := Decimal(n);
      && |s| >= 1 && s[|s| - 1] == Digit(n % 10)
      && (|s| == 1 <==> n < 10)
      && (n >= 10 ==> s[..|s| - 1] == Decimal(n / 10))
  {
    DecimalDigits(n / 10);
  }

  lemma {:induction false} DecimalInjective(m: nat, n: nat)
    requires Decimal(m) == Decimal(n)
    ensures m == n
  {
    SplitDecimal(m);
    SplitDecimal(n);
    hide Decimal;
    assert m % 10 == n % 10;
    if m >= 10 {
      DecimalInjective(m / 10, n / 10);
    }
  }

  lemma NoDashInside(b: string, n: nat, i: nat)
    requires |b| < i < |b| + 1 + |Decimal(n)|
    ensures (b + "-" + Decimal(n))[i] != '-'
  {
    DecimalDigits(n);
    assert (b + "-" + Decimal(n))[i] == Decimal(n)[i - |b| - 1];
  }

  // Both formats end in a '-' and a decimal, so an id can be split at its last '-'.
  lemma LastDash(a: string, m: nat, b: string, n: nat)
    requires a + "-" + Decimal(m) == b + "-" + Decimal(n)
    ensures m == n && a == b
  {
    var s := a + "-" + Decimal(m);
    assert s[|a|] == '-' && s[|b|] == '-';
    if |a| > |b| {
      NoDashInside(b, n, |a|);
    } else if |b| > |a| {
      NoDashInside(a, m, |b|);
    } else {
      assert Decimal(m) == s[|a| + 1..] == Decimal(n);
      assert a == s[..|a|] == b;
      DecimalInjective(m, n);
    }
  }

  lemma SnapshotIdInjective(text: LeaderId -> string, a: Option<LogId>, m: nat, b: Option<LogId>, n: nat)
    requires SnapshotId(text, a, m) == SnapshotId(text, b, n)
    ensures m == n
  {
    var pa := if a.Some? then text(a.value.leaderId) + "-" + Decimal(a.value.index) else "-";
    var pb := if b.Some? then text(b.value.leaderId) + "-" + Decimal(b.value.index) else "-";
    assert SnapshotId(text, a, m) == pa + "-" + Decimal(m);
    assert SnapshotId(text, b, n) == pb + "-" + Decimal(n);
    LastDash(pa, m, pb, n);
  }

  // ---- Reading an id back ----

  predicate IsNumeral(s: string) {
    |s| >= 1 && (forall i :: 0 <= i < |s| ==> '0' <= s[i] <= '9') && (|s| > 1 ==> s[0] != '0')
  }

  // The value of a string of digits, by the place and the value of each character.
  function ValueOf(s: string): nat
    requires forall i :: 0 <= i < |s| ==> '0' <= s[i] <= '9'
  {
    if s == [] then 0 else 10 * ValueOf(s[..|s| - 1]) + (s[|s| - 1] as nat - '0' as nat)
  }

  function ReadNumeral(s: string): Option<nat> {
    if IsNumeral(s) then Some(ValueOf(s)) else None
  }

  // The position of the last '-', -1 if there is none.
  function DashAt(s: string): (i: int)
    ensures -1 <= i < |s|
    ensures i >= 0 ==> s[i] == '-'
    ensures forall j :: i < j < |s| ==> s[j] != '-'
  {
    if s == [] then -1 else if s[|s| - 1] == '-' then |s| - 1 else DashAt(s[..|s| - 1])
  }

  datatype Reading =
    | AppliedAt(leader: string, logIndex: nat, index: nat)
    | NothingApplied(index: nat)
    | Malformed

  // From its last two dashes: the snapshot index behind the last, the log index between them and the
  // leader before; a store that has applied nothing writes two dashes in a row and nothing before.
  function ReadId(s: string): Reading {
    var last := DashAt(s);
    if last < 0 || ReadNumeral(s[last + 1..]).None? then Malformed
    else
      var index, rest := ReadNumeral(s[last + 1..]).value, s[..last];
      var first := DashAt(rest);
      if rest == "-" then NothingApplied(index)
      else if first < 0 || ReadNumeral(rest[first + 1..]).None? then Malformed
      else AppliedAt(rest[..first], ReadNumeral(rest[first + 1..]).value, index)
  }

  lemma {:induction false} DecimalReads(n: nat)
    ensures ReadNumeral(Decimal(n)) == Some(n)
    ensures n > 0 ==> Decimal(n)[0] != '0'
  {
    var s := Decimal(n);
    SplitDecimal(n);
    DecimalDigits(n);
    hide Decimal;
    var front := s[..|s| - 1];
    assert s[|s| - 1] as nat - '0' as nat == n % 10;
    if n >= 10 {
      DecimalReads(n / 10);
      assert s[0] == front[0] && IsNumeral(s);
      assert ValueOf(s) == 10 * (n / 10) + n % 10 == n;
    } else {
      assert front == [] && ValueOf(s) == 10 * ValueOf(front) + n;
    }
  }

  lemma {:induction false} NumeralIsDecimal(s: string)
    requires IsNumeral(s)
    ensures s == Decimal(ValueOf(s))
  {
    var last := s[|s| - 1] as nat - '0' as nat;
    assert Digit(last) == s[|s| - 1];
    if |s| > 1 {
      var front := s[..|s| - 1];
      assert front[0] == s[0];
      NumeralIsDecimal(front);
      PositiveValue(front);
      assert ValueOf(s) / 10 == ValueOf(front) && ValueOf(s) % 10 == last;
      assert s == front + [s[|s| - 1]];
    }
  }

  lemma {:induction false} PositiveValue(s: string)
    requires |s| >= 1 && (forall i :: 0 <= i < |s| ==> '0' <= s[i] <= '9') && s[0] != '0'
    ensures ValueOf(s) > 0
  {
    if |s| > 1 { PositiveValue(s[..|s| - 1]); }
  }

  lemma DashInFront(a: string, d: string)
    requires forall j :: 0 <= j < |d| ==> d[j] != '-'
    ensures var s := a + "-" + d;
      DashAt(s) == |a| && s[..|a|] == a && s[|a| + 1..] == d
  {
    hide DashAt;
    var s := a + "-" + d;
    assert s[|a|] == '-';
    assert forall j :: |a| < j < |s| ==> s[j] == d[j - |a| - 1];
  }

  lemma DashBefore(a: string, n: nat)
    ensures DashAt(a + "-" + Decimal(n)) == |a|
    ensures (a + "-" + Decimal(n))[..|a|] == a && (a + "-" + Decimal(n))[|a| + 1..] == Decimal(n)
  {
    hide Decimal, DashAt;
    DecimalDigits(n);
    DashInFront(a, Decimal(n));
  }

  // A snapshot id reads back as what it was made of, and no other text does: the leader, the index of
  // the entry last applied and the snapshot index, or that nothing was applied and the snapshot index.
  lemma SnapshotIdReads(text: LeaderId -> string, applied: Option<LogId>, index: nat, s: string)
    ensures s == SnapshotId(text, applied, index)
      <==> ReadId(s) == match applied
                        case Some(id) => AppliedAt(text(id.leaderId), id.index, index)
                        case None => NothingApplied(index)
  {
    hide ReadId, Decimal;
    if applied.Some? {
      ReadsApplied(text(applied.value.leaderId), applied.value.index, index);
    } else {
      ReadsNothing(index);
    }
    ReadIdSplits(s);
  }

  lemma ReadsApplied(leader: string, logIndex: nat, index: nat)
    ensures ReadId(leader + "-" + Decimal(logIndex) + "-" + Decimal(index)) == AppliedAt(leader, logIndex, index)
  {
    hide Decimal, DashAt, ReadNumeral;
    var rest := leader + "-" + Decimal(logIndex);
    DecimalReads(index);
    DecimalReads(logIndex);
    DashBefore(rest, index);
    DashBefore(leader, logIndex);
    NotADash(leader, logIndex);
  }

  lemma ReadsNothing(index: nat)
    ensures ReadId("--" + Decimal(index)) == NothingApplied(index)
  {
    hide Decimal, DashAt, ReadNumeral;
    assert "--" + Decimal(index) == "-" + "-" + Decimal(index);
    DecimalReads(index);
    DashBefore("-", index);
  }

  lemma NotADash(a: string, n: nat)
    ensures a + "-" + Decimal(n) != "-"
  {
    DecimalDigits(n);
    assert |a + "-" + Decimal(n)| >= 2;
  }

  lemma ReadIdSplits(s: string)
    ensures match ReadId(s)
            case AppliedAt(leader, logIndex, index) => s == leader + "-" + Decimal(logIndex) + "-" + Decimal(index)
            case NothingApplied(index) => s == "--" + Decimal(index)
            case Malformed => true
  {
    hide Decimal, ValueOf, DashAt;
    if ReadId(s) != Malformed {
      SplitAtDash(s);
      var rest := s[..DashAt(s)];
      if rest != "-" { SplitAtDash(rest); }
    }
  }

  lemma SplitAtDash(s: string)
    requires DashAt(s) >= 0 && ReadNumeral(s[DashAt(s) + 1..]).Some?
    ensures s == s[..DashAt(s)] + "-" + Decimal(ReadNumeral(s[DashAt(s) + 1..]).value)
  {
    hide Decimal, ValueOf, DashAt;
    NumeralIsDecimal(s[DashAt(s) + 1..]);
    assert s == s[..DashAt(s)] + [s[DashAt(s)]] + s[DashAt(s) + 1..];
  }
}
