/**
 Lists linked through a table by slot number, as the firmware keeps its leave queue and
 its receive callbacks: the slot count serves as the end mark.
 */
module SlotLists {
  import opened Sequences

  lemma InsertedIndex(s: seq<nat>, p: nat, x: nat, k: nat)
    requires p <= |s| && k < |s|
    ensures InsertAt(s, p, x)[if k < p then k else k + 1] == s[k]
  {
  }

  lemma RemovedIndex(s: seq<nat>, p: nat, k: nat)
    requires p < |s| && k < |s| - 1
    ensures RemoveAt(s, p)[k] == s[if k < p then k else k + 1]
  {
  }

  lemma InsertedMembers(s: seq<nat>, p: nat, x: nat, y: nat)
    requires p <= |s|
    ensures y in InsertAt(s, p, x) <==> y == x || y in s
  {
    assert s == s[..p] + s[p..];
  }

  lemma RemovedMembers(s: seq<nat>, p: nat, y: nat)
    requires p < |s| && forall k :: 0 <= k < |s| && k != p ==> s[k] != s[p]
    ensures y in RemoveAt(s, p) <==> y in s && y != s[p]
  {
    if y in RemoveAt(s, p) {
      var k :| 0 <= k < |s| - 1 && RemoveAt(s, p)[k] == y;
      RemovedIndex(s, p, k);
    }
    if y in s && y != s[p] {
      var k :| 0 <= k < |s| && s[k] == y;
      RemovedIndex(s, p, if k < p then k else k - 1);
    }
  }

  /** The slot of element k points to the slot of the next element, or to the end mark. */
  predicate LinkAt(next: seq<nat>, order: seq<nat>, k: nat)
    requires k < |order| && order[k] < |next|
  {
    next[order[k]] == if k + 1 < |order| then order[k + 1] else |next|
  }

  function HeadOf(order: seq<nat>, end: nat): nat {
    if order == [] then end else order[0]
  }

  /** Distinct slots, linked in this order from head to the end mark. */
  ghost predicate Chained(next: seq<nat>, head: nat, order: seq<nat>) {
    (forall k {:trigger order[k]} :: 0 <= k < |order| ==> order[k] < |next|) &&
    (forall k {:trigger LinkAt(next, order, k)} :: 0 <= k < |order| ==> LinkAt(next, order, k)) &&
    (forall j, k :: 0 <= j < k < |order| ==> order[j] != order[k]) &&
    head == HeadOf(order, |next|)
  }

  /** The links after element j was bypassed; its own link no longer matters. */
  ghost predicate Bypassed(next: seq<nat>, after: seq<nat>, order: seq<nat>, j: nat)
    requires j < |order| && forall k {:trigger order[k]} :: 0 <= k < |order| ==> order[k] < |next|
  {
    |after| == |next| &&
    forall i {:trigger after[i]} :: 0 <= i < |next| && i != order[j] ==>
      after[i] == if j > 0 && i == order[j - 1] then next[order[j]] else next[i]
  }

  lemma BypassedIsChained(next: seq<nat>, after: seq<nat>, head: nat, order: seq<nat>, j: nat)
    requires Chained(next, head, order) && j < |order| && Bypassed(next, after, order, j)
    ensures Chained(after, if j == 0 then next[order[0]] else head, RemoveAt(order, j))
  {
    var less := RemoveAt(order, j);
    assert LinkAt(next, order, j);
    forall k | 0 <= k < |less| ensures less[k] < |after| && LinkAt(after, less, k) {
      var was := if k < j then k else k + 1;
      RemovedIndex(order, j, k);
      assert LinkAt(next, order, was);
      if k + 1 < |less| { RemovedIndex(order, j, k + 1); }
    }
    forall i, k | 0 <= i < k < |less| ensures less[i] != less[k] {
      RemovedIndex(order, j, i);
      RemovedIndex(order, j, k);
    }
    if less != [] { RemovedIndex(order, j, 0); }
  }

  /** The links after slot x was linked in as element p. */
  ghost predicate LinkedIn(next: seq<nat>, after: seq<nat>, order: seq<nat>, p: nat, x: nat)
    requires p <= |order| && x < |next| && forall k {:trigger order[k]} :: 0 <= k < |order| ==> order[k] < |next|
  {
    |after| == |next| && after[x] == (if p < |order| then order[p] else |next|) &&
    forall i {:trigger after[i]} :: 0 <= i < |next| && i != x ==>
      after[i] == if p > 0 && i == order[p - 1] then x else next[i]
  }

  lemma LinkedInIsChained(next: seq<nat>, after: seq<nat>, head: nat, order: seq<nat>, p: nat, x: nat)
    requires Chained(next, head, order) && p <= |order| && x < |next| && x !in order
    requires LinkedIn(next, after, order, p, x)
    ensures Chained(after, if p == 0 then x else head, InsertAt(order, p, x))
  {
    var more := InsertAt(order, p, x);
    forall k | 0 <= k < |order| ensures order[k] != x {
      assert order[k] in order;
    }
    forall k | 0 <= k < |more| ensures more[k] < |after| && LinkAt(after, more, k) {
      LinkedInAt(next, after, head, order, p, x, k);
    }
    forall i, k | 0 <= i < k < |more| ensures more[i] != more[k] {
      if i != p { InsertedIndex(order, p, x, if i < p then i else i - 1); }
      if k != p { InsertedIndex(order, p, x, if k < p then k else k - 1); }
    }
    if p > 0 { InsertedIndex(order, p, x, 0); }
  }

  lemma LinkedInAt(next: seq<nat>, after: seq<nat>, head: nat, order: seq<nat>, p: nat, x: nat, k: nat)
    requires Chained(next, head, order) && p <= |order| && x < |next| && k <= |order|
    requires forall h :: 0 <= h < |order| ==> order[h] != x
    requires LinkedIn(next, after, order, p, x)
    ensures InsertAt(order, p, x)[k] < |after| && LinkAt(after, InsertAt(order, p, x), k)
  {
    if k != p {
      var was := if k < p then k else k - 1;
      InsertedIndex(order, p, x, was);
      assert LinkAt(next, order, was);
    }
    if k + 1 <= |order| && k + 1 != p {
      InsertedIndex(order, p, x, if k + 1 < p then k + 1 else k);
    }
  }
}
