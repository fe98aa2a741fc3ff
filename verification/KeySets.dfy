// Least, greatest and ascending order of a finite set of row keys: what SQLite's primary-key
// index gives for ORDER BY .. DESC LIMIT 1 and for a range scan.
module KeySets {
  import opened RaftTypes

  predicate IsLeast(k: I64, keys: set<I64>) {
    k in keys && forall j :: j in keys ==> k <= j
  }

  predicate IsGreatest(k: I64, keys: set<I64>) {
    k in keys && forall j :: j in keys ==> j <= k
  }

  lemma {:induction false} LeastExists(keys: set<I64>)
    requires keys != {}
    ensures exists k :: IsLeast(k, keys)
  {
    var x :| x in keys;
    var rest := keys - {x};
    if rest == {} {
      assert keys == {x};
      assert IsLeast(x, keys);
    } else {
      LeastExists(rest);
      var y :| IsLeast(y, rest);
      assert forall j :: j in keys ==> j == x || j in rest;
      assert IsLeast(x, keys) || IsLeast(y, keys);
    }
  }

  lemma {:induction false} GreatestExists(keys: set<I64>)
    requires keys != {}
    ensures exists k :: IsGreatest(k, keys)
  {
    var x :| x in keys;
    var rest := keys - {x};
    if rest == {} {
      assert keys == {x};
      assert IsGreatest(x, keys);
    } else {
      GreatestExists(rest);
      var y :| IsGreatest(y, rest);
      assert forall j :: j in keys ==> j == x || j in rest;
      assert IsGreatest(x, keys) || IsGreatest(y, keys);
    }
  }

  function Least(keys: set<I64>): (k: I64)
    requires keys != {}
    ensures IsLeast(k, keys)
  {
    LeastExists(keys);
    var k :| k in keys && IsLeast(k, keys);
    k
  }

  function Greatest(keys: set<I64>): (k: I64)
    requires keys != {}
    ensures IsGreatest(k, keys)
  {
    GreatestExists(keys);
    var k :| k in keys && IsGreatest(k, keys);
    k
  }

  // The keys in ascending order, each once.
  function Ascending(keys: set<I64>): (r: seq<I64>)
    ensures |r| == |keys|
    ensures forall k :: k in r <==> k in keys
    ensures forall i, j :: 0 <= i < j < |r| ==> r[i] < r[j]
    decreases |keys|
  {
    if keys == {} then []
    else
      var k := Least(keys);
      [k] + Ascending(keys - {k})
  }

  lemma GreatestIsLast(keys: set<I64>)
    requires keys != {}
    ensures Ascending(keys) != [] && Ascending(keys)[|Ascending(keys)| - 1] == Greatest(keys)
  {
    hide Ascending, Greatest;
    var r := Ascending(keys);
    assert Greatest(keys) in r;
    var i :| 0 <= i < |r| && r[i] == Greatest(keys);
    assert r[|r| - 1] in keys;
  }

  // Strictly ascending sequences with the same elements are equal.
  lemma {:induction false} AscendingUnique(a: seq<I64>, b: seq<I64>)
    requires forall i, j :: 0 <= i < j < |a| ==> a[i] < a[j]
    requires forall i, j :: 0 <= i < j < |b| ==> b[i] < b[j]
    requires forall k :: k in a <==> k in b
    ensures a == b
  {
    assert a != [] ==> a[0] in a && a[0] in b;
    assert b != [] ==> b[0] in b && b[0] in a;
    if a != [] && b != [] {
      assert a[0] == b[0];
      forall k ensures k in a[1..] <==> k in b[1..] {
        assert k in a <==> k == a[0] || k in a[1..];
        assert k in b <==> k == b[0] || k in b[1..];
      }
      AscendingUnique(a[1..], b[1..]);
      assert a == [a[0]] + a[1..] && b == [b[0]] + b[1..];
    }
  }
}
