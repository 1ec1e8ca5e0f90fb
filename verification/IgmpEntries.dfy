/**
 What a tick of the IGMP leave queue means for the layer-2 entries that groups share: when
 a port stays in an entry, and when entry and groups still agree afterwards.
 */
module IgmpEntries {
  import opened Words
  import opened IgmpGroups
  import opened IgmpLeaves

  /** The walk ends at its first record, which runs out while its group is unknown. */
  predicate Halts(s: Snoop, q: seq<Leave>, k: nat, started: bool) {
    k < |q| && ExpiresAt(q, k) && !started && !Known(s, q[k])
  }

  /** The walk from record k on takes port p of entry key from the group of record j. */
  predicate LeavesAt(s: Snoop, q: seq<Leave>, k: nat, j: nat, key: L2Key, p: int)
    requires WellFormed(s) && j < |q|
  {
    ExpiresAt(q, j) && StillKnown(s, q, k, j) && RecordKey(q[j]) == key && q[j].uport == p
  }

  /** The groups on entry key that lose port p to the walk from record k on. */
  function Leaving(s: Snoop, q: seq<Leave>, k: nat, key: L2Key, p: int): set<GroupId>
    requires WellFormed(s)
  {
    set j | k <= j < |q| && LeavesAt(s, q, k, j, key, p) :: RecordId(q[j])
  }

  /** The groups on entry key that lose port p in a tick. */
  function Losing(s: Snoop, q: seq<Leave>, key: L2Key, p: int): set<GroupId>
    requires WellFormed(s)
  {
    if Halts(s, q, 0, false) then {} else Leaving(s, q, 0, key, p)
  }

  /** The port stays in the entry exactly if nobody leaves, or all that leave and some other group are active on it. */
  predicate KeptFor(actives: set<GroupId>, leaving: set<GroupId>) {
    leaving == {} || (leaving <= actives && actives - leaving != {})
  }

  /** Of records that run out no two are for the same group and port. */
  ghost predicate LeaveOnce(q: seq<Leave>) {
    forall j, l :: 0 <= j < l && ExpiresAt(q, j) && ExpiresAt(q, l) ==> !SameLeave(q[j], q[l])
  }

  // ---------- one record ----------

  /** The group that record k takes the port from. */
  function LeavingNow(s: Snoop, q: seq<Leave>, k: nat, key: L2Key, p: int): set<GroupId>
    requires k < |q|
  {
    if ExpiresAt(q, k) && Known(s, q[k]) && RecordKey(q[k]) == key && q[k].uport == p then {RecordId(q[k])} else {}
  }

  lemma TickAfterRecord(s: Snoop, q: seq<Leave>, k: nat, started: bool)
    requires WellFormed(s) && k < |q| && Queued(q)
    ensures Tick(s, q, k, started).snoop ==
            if Halts(s, q, k, started) then s else Tick(AfterRecord(s, q, k), q, k + 1, true).snoop
  {
    assert Countdown(q[k].timeout) == if q[k].timeout == 0 then 255 else q[k].timeout - 1;
  }

  /** What record k does to the groups and to one port of one layer-2 entry. */
  lemma RecordStep(s: Snoop, q: seq<Leave>, k: nat, key: L2Key, p: int)
    requires DbInv(s) && Queued(q) && k < |q|
    ensures DbInv(AfterRecord(s, q, k)) && AfterRecord(s, q, k).routers == s.routers
    ensures forall aged :: Users(AfterRecord(s, q, k), aged, key, p) ==
                           Users(s, aged, key, p) - LeavingNow(s, q, k, key, p)
    ensures !RouterPort(s, key.vid, p) && (InL2(s, key, p) ==> Holders(s, key, p) != {}) ==>
              (InL2(AfterRecord(s, q, k), key, p) <==>
               InL2(s, key, p) && KeptFor(Actives(s, key, p), LeavingNow(s, q, k, key, p)))
  {
    if ExpiresAt(q, k) && Known(s, q[k]) {
      var i, u := Find(s.db, q[k].vid, q[k].gda, 0), q[k].uport;
      FindsNamed(s, q[k]);
      ExpireKeepsInv(s, i, u);
      forall aged
        ensures Users(Expire(s, i, u), aged, key, p) == Users(s, aged, key, p) - LeavingNow(s, q, k, key, p)
      {
        ExpireView(s, i, u, aged, key, p);
        if key != L2KeyOf(s.db[i]) {
          IdHasKey(s, i, aged, key, p);
        }
      }
      if !RouterPort(s, key.vid, p) && (InL2(s, key, p) ==> Holders(s, key, p) != {}) {
        ExpireL2(s, i, u, key, p);
      }
    }
  }

  /** Whether the walk still finds the group of a later record does not change when it passes record k. */
  lemma StillKnownLater(s: Snoop, q: seq<Leave>, k: nat, j: nat)
    requires DbInv(s) && Queued(q) && k < j < |q| && ExpiresAt(q, j) && DbInv(AfterRecord(s, q, k))
    ensures StillKnown(s, q, k, j) <==> StillKnown(AfterRecord(s, q, k), q, k + 1, j)
  {
    if !ExpiresAt(q, k) {
      RegularAfterPassing(s, q, k, j);
    } else if Known(s, q[k]) {
      RegularAfterExpiry(s, q, k, j);
    } else {
      TakenBeforeMore(q, k, j);
      KnownIsGroup(s, q[k]);
      KnownIsGroup(s, q[j]);
    }
  }

  lemma LeavingUnfolds(s: Snoop, q: seq<Leave>, k: nat, key: L2Key, p: int)
    requires DbInv(s) && Queued(q) && k < |q| && DbInv(AfterRecord(s, q, k))
    ensures Leaving(s, q, k, key, p) ==
            Leaving(AfterRecord(s, q, k), q, k + 1, key, p) + LeavingNow(s, q, k, key, p)
    ensures LeaveOnce(q) ==>
              LeavingNow(s, q, k, key, p) !! Leaving(AfterRecord(s, q, k), q, k + 1, key, p)
  {
    var t, now := AfterRecord(s, q, k), LeavingNow(s, q, k, key, p);
    assert TakenBefore(q, k, k) == {};
    forall id | id in Leaving(s, q, k, key, p) ensures id in Leaving(t, q, k + 1, key, p) + now {
      var j :| k <= j < |q| && LeavesAt(s, q, k, j, key, p) && RecordId(q[j]) == id;
      if j > k {
        StillKnownLater(s, q, k, j);
        assert LeavesAt(t, q, k + 1, j, key, p);
      }
    }
    forall id | id in Leaving(t, q, k + 1, key, p) ensures id in Leaving(s, q, k, key, p) {
      var j :| k + 1 <= j < |q| && LeavesAt(t, q, k + 1, j, key, p) && RecordId(q[j]) == id;
      StillKnownLater(s, q, k, j);
      assert LeavesAt(s, q, k, j, key, p);
    }
    if now != {} {
      assert LeavesAt(s, q, k, k, key, p);
    }
  }

  // ---------- the whole walk ----------

  lemma {:induction false} TickKeepsInv(s: Snoop, q: seq<Leave>, k: nat, started: bool)
    requires DbInv(s) && k <= |q| && Queued(q)
    ensures DbInv(Tick(s, q, k, started).snoop)
    decreases |q| - k
  {
    if k == |q| {
    } else {
      TickAfterRecord(s, q, k, started);
      RecordStep(s, q, k, RecordKey(q[k]), q[k].uport);
      TickKeepsInv(AfterRecord(s, q, k), q, k + 1, true);
    }
  }

  /** The walk takes the port from these groups and from no other. */
  lemma {:induction false} WalkView(s: Snoop, q: seq<Leave>, k: nat, started: bool, aged: bool, key: L2Key, p: int)
    requires DbInv(s) && k <= |q| && Queued(q) && !Halts(s, q, k, started)
    ensures Users(Tick(s, q, k, started).snoop, aged, key, p) == Users(s, aged, key, p) - Leaving(s, q, k, key, p)
    decreases |q| - k
  {
    if k < |q| {
      TickAfterRecord(s, q, k, started);
      RecordStep(s, q, k, key, p);
      LeavingUnfolds(s, q, k, key, p);
      WalkView(AfterRecord(s, q, k), q, k + 1, true, aged, key, p);
    } else {
      assert Leaving(s, q, k, key, p) == {};
    }
  }

  /** Some leavers after others are all of them together. */
  lemma KeptForJoins(actives: set<GroupId>, now: set<GroupId>, rest: set<GroupId>)
    requires now !! rest
    ensures KeptFor(actives, now) && KeptFor(actives - now, rest) <==> KeptFor(actives, rest + now)
  {
    assert actives - now - rest == actives - (rest + now);
    if now == {} {
      assert actives - now == actives && rest + now == rest;
    } else if rest == {} {
      assert rest + now == now;
    } else if rest <= actives - now && actives - now - rest != {} {
      var x :| x in actives - now - rest;
      assert x in actives - now;
    }
  }

  lemma StillHeld(s: Snoop, key: L2Key, p: int, now: set<GroupId>)
    requires DbInv(s) && Holders(s, key, p) != {} && KeptFor(Actives(s, key, p), now)
    ensures Holders(s, key, p) - now != {}
  {
    ActivesHold(s, key, p);
    if now == {} {
      assert Holders(s, key, p) - now == Holders(s, key, p);
    } else {
      var x :| x in Actives(s, key, p) - now;
      assert x in Holders(s, key, p) - now;
    }
  }

  /** The port stays in the entry over the walk from record k on exactly as it should. */
  predicate KeptRightly(s: Snoop, q: seq<Leave>, k: nat, started: bool, key: L2Key, p: int)
    requires WellFormed(s) && k <= |q|
  {
    InL2(Tick(s, q, k, started).snoop, key, p) <==>
    InL2(s, key, p) && KeptFor(Actives(s, key, p), Leaving(s, q, k, key, p))
  }

  /** One record of the walk and the port's place in the entry. */
  lemma WalkTurn(s: Snoop, q: seq<Leave>, k: nat, started: bool, key: L2Key, p: int) returns (t: Snoop)
    requires DbInv(s) && k < |q| && Queued(q) && LeaveOnce(q) && !Halts(s, q, k, started)
    requires !RouterPort(s, key.vid, p) && (InL2(s, key, p) ==> Holders(s, key, p) != {})
    ensures DbInv(t) && t.routers == s.routers && (InL2(t, key, p) ==> Holders(t, key, p) != {})
    ensures KeptRightly(t, q, k + 1, true, key, p) ==> KeptRightly(s, q, k, started, key, p)
  {
    t := AfterRecord(s, q, k);
    var now := LeavingNow(s, q, k, key, p);
    TickAfterRecord(s, q, k, started);
    RecordStep(s, q, k, key, p);
    LeavingUnfolds(s, q, k, key, p);
    KeptForJoins(Actives(s, key, p), now, Leaving(t, q, k + 1, key, p));
    if InL2(t, key, p) {
      StillHeld(s, key, p, now);
    }
  }

  lemma {:induction false} WalkL2(s: Snoop, q: seq<Leave>, k: nat, started: bool, key: L2Key, p: int)
    requires DbInv(s) && k <= |q| && Queued(q) && LeaveOnce(q) && !Halts(s, q, k, started)
    requires !RouterPort(s, key.vid, p) && (InL2(s, key, p) ==> Holders(s, key, p) != {})
    ensures KeptRightly(s, q, k, started, key, p)
    decreases |q| - k
  {
    if k < |q| {
      var t := WalkTurn(s, q, k, started, key, p);
      WalkL2(t, q, k + 1, true, key, p);
    } else {
      assert Leaving(s, q, k, key, p) == {};
    }
  }

  /** After the tick each group has lost exactly the ports of its records that the walk expired. */
  lemma TickView(s: Snoop, q: seq<Leave>, aged: bool, key: L2Key, p: int)
    requires DbInv(s) && Queued(q)
    ensures Users(Tick(s, q, 0, false).snoop, aged, key, p) == Users(s, aged, key, p) - Losing(s, q, key, p)
  {
    if Halts(s, q, 0, false) {
      TickAfterRecord(s, q, 0, false);
    } else {
      WalkView(s, q, 0, false, aged, key, p);
    }
  }

  /** The tick keeps a port in an entry exactly if nobody loses it, or all that do and some other group are active. */
  lemma TickL2(s: Snoop, q: seq<Leave>, key: L2Key, p: int)
    requires DbInv(s) && Queued(q) && LeaveOnce(q)
    requires !RouterPort(s, key.vid, p) && (InL2(s, key, p) ==> Holders(s, key, p) != {})
    ensures InL2(Tick(s, q, 0, false).snoop, key, p) <==>
            InL2(s, key, p) && KeptFor(Actives(s, key, p), Losing(s, q, key, p))
  {
    if Halts(s, q, 0, false) {
      TickAfterRecord(s, q, 0, false);
    } else {
      WalkL2(s, q, 0, false, key, p);
    }
  }

  // ---------- the main results ----------

  /**
   The law the comments of the source promise, and exactly when it holds: from agreeing
   tables a tick leads to agreeing tables if and only if, for the groups that lose the
   port, nobody keeps it or the age bits show both the leavers and a group that stays.
   */
  lemma TickKeepsL2Exactly(s: Snoop, q: seq<Leave>, key: L2Key, p: int)
    requires DbInv(s) && Queued(q) && LeaveOnce(q) && !RouterPort(s, key.vid, p) && Agrees(s, key, p)
    ensures
      var losing := Losing(s, q, key, p);
      Agrees(Tick(s, q, 0, false).snoop, key, p) <==>
      Holders(s, key, p) - losing == {} || KeptFor(Actives(s, key, p), losing)
  {
    TickView(s, q, false, key, p);
    TickL2(s, q, key, p);
    if Holders(s, key, p) != {} && KeptFor(Actives(s, key, p), Losing(s, q, key, p)) {
      StillHeld(s, key, p, Losing(s, q, key, p));
    }
  }

  /** The same for every second of every run of the queue, in which no record is ever doubled. */
  lemma EverySecondKeepsL2Exactly(qs: seq<seq<Leave>>, steps: seq<QueueStep>, k: nat, key: L2Key, p: int)
    requires IsQueueRun(qs, steps) && k < |steps| && steps[k].Second? && DbInv(steps[k].groups)
    requires !RouterPort(steps[k].groups, key.vid, p) && Agrees(steps[k].groups, key, p)
    ensures
      var s := steps[k].groups;
      var losing := Losing(s, qs[k], key, p);
      Agrees(Tick(s, qs[k], 0, false).snoop, key, p) <==>
      Holders(s, key, p) - losing == {} || KeptFor(Actives(s, key, p), losing)
  {
    EveryRunHasNoDoubles(qs, steps, k);
    TickKeepsL2Exactly(steps[k].groups, qs[k], key, p);
  }

  /** While every listed port has its age bit: the law holds exactly if whoever loses the port had it. */
  lemma FreshAgesKeepL2(s: Snoop, q: seq<Leave>, key: L2Key, p: int)
    requires DbInv(s) && Queued(q) && LeaveOnce(q) && !RouterPort(s, key.vid, p) && Agrees(s, key, p)
    requires Actives(s, key, p) == Holders(s, key, p)
    ensures
      var losing := Losing(s, q, key, p);
      Agrees(Tick(s, q, 0, false).snoop, key, p) <==> Holders(s, key, p) - losing == {} || losing <= Holders(s, key, p)
  {
    TickKeepsL2Exactly(s, q, key, p);
  }

  /** Whoever loses the port had it, if every record that runs out is for a port its group lists, if it is known. */
  lemma ListedLoseWhatTheyHold(s: Snoop, q: seq<Leave>, key: L2Key, p: int)
    requires DbInv(s) && Queued(q)
    requires forall j :: ExpiresAt(q, j) && Known(s, q[j]) ==> Listed(s, q[j])
    ensures Losing(s, q, key, p) <= Holders(s, key, p)
  {
    forall id | id in Losing(s, q, key, p) ensures id in Holders(s, key, p) {
      var j :| 0 <= j < |q| && LeavesAt(s, q, 0, j, key, p) && RecordId(q[j]) == id;
      assert ExpiresAt(q, j) && Known(s, q[j]);
      ListedIsHolding(s, q[j]);
    }
  }
}
