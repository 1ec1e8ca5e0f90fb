/**
 What leave messages, queries and reports do to the records of the IGMP leave queue: which
 record changes, how long it has left, and that all others stay (appl/igmpsnoop/igmpsnoop.c).
 */
module IgmpMessages {
  import opened Words
  import opened IgmpGroups
  import opened IgmpLeaves

  /** The record for this group and port has this timeout. */
  predicate QueuedWith(q: seq<Leave>, r: Leave, timeout: nat) {
    exists j :: 0 <= j < |q| && SameLeave(q[j], r) && q[j].timeout == timeout
  }

  /** There is a record for this group and port. */
  predicate IsQueued(q: seq<Leave>, r: Leave) {
    exists j :: 0 <= j < |q| && SameLeave(q[j], r)
  }

  /** The records for other groups or ports, in their order. */
  function Others(q: seq<Leave>, r: Leave): seq<Leave> {
    if q == [] then []
    else Others(q[..|q| - 1], r) + if SameLeave(q[|q| - 1], r) then [] else [q[|q| - 1]]
  }

  lemma {:induction false} OthersOfChanged(q: seq<Leave>, r: Leave, k: nat, x: Leave)
    requires k < |q| && SameLeave(q[k], r) && SameLeave(x, r)
    ensures Others(q[k := x], r) == Others(q, r)
  {
    var n := |q| - 1;
    if k == n {
      assert q[k := x][..n] == q[..n];
    } else {
      OthersOfChanged(q[..n], r, k, x);
      assert q[k := x][..n] == q[..n][k := x];
    }
  }

  lemma {:induction false} OthersOfMore(q: seq<Leave>, r: Leave, x: Leave)
    requires SameLeave(x, r)
    ensures Others([x] + q, r) == Others(q, r)
  {
    var n := |q| - 1;
    if q == [] {
      assert ([x] + q)[..0] == [];
    } else {
      OthersOfMore(q[..n], r, x);
      assert ([x] + q)[..|q|] == [x] + q[..n];
    }
  }

  lemma {:induction false} OthersOfLess(q: seq<Leave>, r: Leave, k: nat)
    requires k < |q| && SameLeave(q[k], r)
    ensures Others(q[..k] + q[k + 1..], r) == Others(q, r)
  {
    var n := |q| - 1;
    if k == n {
      assert q[..k] + q[k + 1..] == q[..n];
    } else {
      OthersOfLess(q[..n], r, k);
      assert (q[..k] + q[k + 1..])[..n - 1] == q[..n][..k] + q[..n][k + 1..];
    }
  }

  /** The search finds a record if and only if there is one. */
  lemma PositionIsQueued(q: seq<Leave>, r: Leave)
    requires NoDoubles(q) && FromMessage(r)
    ensures IsQueued(q, r) <==> Position(q, r.vid, r.gda, r.uport, 0) < |q|
    ensures IsQueued(q, r) ==> SameLeave(q[Position(q, r.vid, r.gda, r.uport, 0)], r)
  {
    if Position(q, r.vid, r.gda, r.uport, 0) < |q| {
      PositionHit(q, r, 0);
    } else {
      PositionFinds(q, r, 0);
    }
  }

  /** A leave message is accepted for a known group if it has a record or there is room; it touches no other record. */
  lemma InsertedMeans(q: seq<Leave>, r: Leave, known: bool)
    requires NoDoubles(q) && FromMessage(r)
    ensures
      var (ok, q') := Inserted(q, r, known);
      (ok <==> known && (IsQueued(q, r) || |q| < 128)) && (!ok ==> q' == q) && Others(q', r) == Others(q, r)
  {
    var k, q' := Position(q, r.vid, r.gda, r.uport, 0), Inserted(q, r, known).1;
    PositionIsQueued(q, r);
    if Inserted(q, r, known).0 {
      if k < |q| {
        OthersOfChanged(q, r, k, q'[k]);
      } else {
        OthersOfMore(q, r, r);
      }
    }
  }

  /** A new record gets the message's timeout, an old one at most that: a repeated leave never puts off the end. */
  lemma InsertedTimeout(q: seq<Leave>, r: Leave, known: bool, t: nat)
    requires NoDoubles(q) && FromMessage(r) && Inserted(q, r, known).0
    ensures !IsQueued(q, r) ==> QueuedWith(Inserted(q, r, known).1, r, r.timeout)
    ensures QueuedWith(q, r, t) ==> QueuedWith(Inserted(q, r, known).1, r, if t < r.timeout then t else r.timeout)
  {
    var k, q' := Position(q, r.vid, r.gda, r.uport, 0), Inserted(q, r, known).1;
    PositionIsQueued(q, r);
    if k < |q| {
      if j :| 0 <= j < |q| && SameLeave(q[j], r) && q[j].timeout == t {
        assert j == k;
      }
      assert SameLeave(q'[k], r);
    } else {
      assert SameLeave(q'[0], r);
    }
  }

  /** A report takes back the record of its group and port, if there is one, and no other. */
  lemma WithdrawnMeans(q: seq<Leave>, r: Leave)
    requires NoDoubles(q) && FromMessage(r)
    ensures
      var (ok, q') := Withdrawn(q, r.vid, r.gda, r.uport);
      (ok <==> IsQueued(q, r)) && !IsQueued(q', r) && Others(q', r) == Others(q, r)
  {
    var k := Position(q, r.vid, r.gda, r.uport, 0);
    WithdrawnHasNoDoubles(q, r);
    if k < |q| {
      PositionHit(q, r, 0);
      OthersOfLess(q, r, k);
    } else {
      PositionFinds(q, r, 0);
    }
  }

  lemma {:induction false} SurvivorsAre(q: seq<Leave>, k: nat, r: Leave)
    requires k <= |q|
    ensures r in Survivors(q, k) <==>
            exists j :: k <= j < |q| && q[j].timeout >= 2 && r == q[j].(timeout := q[j].timeout - 1)
    decreases |q| - k
  {
    if k == |q| {
    } else {
      SurvivorsAre(q, k + 1, r);
    }
  }

  /** A query gives each record of its group two seconds: it survives one, and runs out in the next. */
  lemma GrantedLastsTwoSeconds(q: seq<Leave>, vid: nat, gda: Word, j: nat)
    requires j < |q|
    ensures
      var r := Granted(q, vid, gda);
      if q[j].vid == vid && q[j].gda == gda then
        q[j].(timeout := 1) in Survivors(r, 0) &&
        forall x :: x in Survivors(Survivors(r, 0), 0) ==> !(x.vid == vid && x.gda == gda)
      else r[j] == q[j]
  {
    var r := Granted(q, vid, gda);
    SurvivorsAre(r, 0, q[j].(timeout := 1));
    assert r[j] == if q[j].vid == vid && q[j].gda == gda then q[j].(timeout := 2) else q[j];
    forall x | x in Survivors(Survivors(r, 0), 0) ensures !(x.vid == vid && x.gda == gda) {
      SurvivorsAre(Survivors(r, 0), 0, x);
      var i :| 0 <= i < |Survivors(r, 0)| && Survivors(r, 0)[i].timeout >= 2 &&
               x == Survivors(r, 0)[i].(timeout := Survivors(r, 0)[i].timeout - 1);
      SurvivorsAre(r, 0, Survivors(r, 0)[i]);
    }
  }
}
