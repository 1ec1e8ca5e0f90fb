/** Sequences with one element put in or taken out, and how many distinct numbers one can hold. */
module Sequences {
  function InsertAt<T>(s: seq<T>, p: nat, x: T): (r: seq<T>)
    requires p <= |s|
    ensures |r| == |s| + 1 && r[p] == x
  {
    s[..p] + [x] + s[p..]
  }

  function RemoveAt<T>(s: seq<T>, p: nat): (r: seq<T>)
    requires p < |s|
    ensures |r| == |s| - 1
  {
    s[..p] + s[p + 1..]
  }

  function NumbersBelow(n: nat): (s: set<nat>)
    ensures |s| == n && forall i :: i in s <==> 0 <= i < n
  {
    if n == 0 then {} else NumbersBelow(n - 1) + {n - 1}
  }

  ghost function Elements(order: seq<nat>): (s: set<nat>)
    ensures forall i :: i in s <==> i in order
  {
    set i | i in order
  }

  lemma {:induction false} DistinctCount(order: seq<nat>)
    requires forall j, k :: 0 <= j < k < |order| ==> order[j] != order[k]
    ensures |Elements(order)| == |order|
  {
    if order == [] {
      assert Elements(order) == {};
    } else {
      DistinctCount(order[1..]);
      assert Elements(order) == Elements(order[1..]) + {order[0]};
    }
  }

  lemma SubsetCount(a: set<nat>, b: set<nat>)
    requires a <= b
    ensures |a| <= |b| && (|a| == |b| ==> a == b)
  {
    assert b == a + (b - a);
  }
}
