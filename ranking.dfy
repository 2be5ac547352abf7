/**
 * `nlargest(n, col)` with pandas' default `keep='first'`: the positions of
 * the n largest amounts, largest first, ties in their original order
 * (dashboard.py lines 204, 389).
 */
module Ranking {

  /** Position x comes before position y in the ranking: a larger amount, or the same amount earlier. */
  predicate Precedes(keys: seq<real>, x: nat, y: nat)
    requires x < |keys| && y < |keys|
  {
    keys[x] > keys[y] || (keys[x] == keys[y] && x < y)
  }

  predicate InRange(keys: seq<real>, o: seq<nat>) {
    forall k :: 0 <= k < |o| ==> o[k] < |keys|
  }

  /** A list of positions in ranking order; this forces the positions to be distinct. */
  predicate Ranked(keys: seq<real>, o: seq<nat>)
    requires InRange(keys, o)
  {
    forall a, b :: 0 <= a < b < |o| ==> Precedes(keys, o[a], o[b])
  }

  /** Position i placed among ranked positions. */
  function Place(keys: seq<real>, o: seq<nat>, i: nat): (r: seq<nat>)
    requires InRange(keys, o) && i < |keys|
    ensures |r| == |o| + 1 && InRange(keys, r)
    ensures forall y :: y in r <==> y in o || y == i
  {
    if o == [] then [i]
    else if Precedes(keys, o[0], i) then [o[0]] + Place(keys, o[1..], i)
    else [i] + o
  }

  lemma PrecedesTransitive(keys: seq<real>, x: nat, y: nat, z: nat)
    requires x < |keys| && y < |keys| && z < |keys|
    requires Precedes(keys, x, y) && Precedes(keys, y, z)
    ensures Precedes(keys, x, z)
  {
  }

  lemma {:induction false} PlaceRanked(keys: seq<real>, o: seq<nat>, i: nat)
    requires InRange(keys, o) && i < |keys| && i !in o && Ranked(keys, o)
    ensures Ranked(keys, Place(keys, o, i))
  {
    if o != [] {
      if Precedes(keys, o[0], i) {
        var rest := Place(keys, o[1..], i);
        PlaceRanked(keys, o[1..], i);
        forall b | 0 <= b < |rest| ensures Precedes(keys, o[0], rest[b]) {
          if rest[b] != i {
            assert rest[b] in o[1..];
            var k :| 0 <= k < |o[1..]| && o[1..][k] == rest[b];
            assert o[k + 1] == rest[b];
          }
        }
      } else {
        assert o[0] != i;
        forall b | 0 < b < |o| ensures Precedes(keys, i, o[b]) {
          PrecedesTransitive(keys, i, o[0], o[b]);
        }
      }
    }
  }

  /** The first n positions in ranking order: a stable sort by descending amount. */
  function Ranks(keys: seq<real>, n: nat): (r: seq<nat>)
    requires n <= |keys|
    ensures |r| == n && InRange(keys, r) && Ranked(keys, r)
    ensures forall y: nat :: y in r <==> y < n
  {
    if n == 0 then []
    else
      var prev := Ranks(keys, n - 1);
      PlaceRanked(keys, prev, n - 1);
      Place(keys, prev, n - 1)
  }

  function Smaller(a: nat, b: nat): nat {
    if a <= b then a else b
  }

  /** `nlargest(n)`: the first n positions of the ranking, or all of them when there are fewer. */
  function TopIndices(keys: seq<real>, n: nat): (r: seq<nat>)
    ensures |r| == Smaller(n, |keys|)
    ensures forall k :: 0 <= k < |r| ==> r[k] < |keys|
  {
    Ranks(keys, |keys|)[..Smaller(n, |keys|)]
  }

  /**
   * The positions kept are distinct, largest amount first, and equal
   * amounts in their original order.
   */
  lemma TopOrdered(keys: seq<real>, n: nat)
    ensures var r := TopIndices(keys, n);
            && (forall a, b :: 0 <= a < b < |r| ==> r[a] != r[b])
            && (forall a, b :: 0 <= a < b < |r| ==> keys[r[a]] >= keys[r[b]])
            && (forall a, b :: 0 <= a < b < |r| && keys[r[a]] == keys[r[b]] ==> r[a] < r[b])
  {
    var all := Ranks(keys, |keys|);
    var r := TopIndices(keys, n);
    assert forall a, b :: 0 <= a < b < |r| ==> Precedes(keys, r[a], r[b]) by {
      forall a, b | 0 <= a < b < |r| ensures Precedes(keys, r[a], r[b]) {
        assert r[a] == all[a] && r[b] == all[b];
      }
    }
  }

  /**
   * Nothing left out beats anything kept: a position left out has an amount
   * no larger than any kept one, and one with an equal amount comes later.
   * Asking for at least as many as there are keeps every position.
   */
  lemma TopExcluded(keys: seq<real>, n: nat)
    ensures var r := TopIndices(keys, n);
            forall i, k :: 0 <= i < |keys| && i !in r && 0 <= k < |r| ==>
              keys[i] <= keys[r[k]] && (keys[i] == keys[r[k]] ==> r[k] < i)
    ensures n >= |keys| ==> forall i :: 0 <= i < |keys| ==> i in TopIndices(keys, n)
  {
    var all := Ranks(keys, |keys|);
    var r := TopIndices(keys, n);
    forall i, k | 0 <= i < |keys| && i !in r && 0 <= k < |r|
      ensures keys[i] <= keys[r[k]] && (keys[i] == keys[r[k]] ==> r[k] < i)
    {
      assert i in all;
      var p :| 0 <= p < |all| && all[p] == i;
      assert r[k] == all[k];
      assert Precedes(keys, all[k], all[p]);
    }
    if n >= |keys| {
      assert r == all;
    }
  }
}
