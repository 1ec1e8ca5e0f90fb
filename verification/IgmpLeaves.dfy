/**
 One tick of the IGMP leave queue (appl/igmpsnoop/igmpsnoop_cbk.c) as a function, what it
 means for the queue, and the runs of the queue.
 */
module IgmpLeaves {
  import opened Words
  import opened IgmpGroups

  const MAX_IGMP_LEAVE := 128

  /** IGMP_SpecQUERY_TIMEOUT, in seconds. */
  const IGMP_LEAVE_TIMEOUT := 2

  /** A queued leave record; the timeout has 8 bits. */
  datatype Leave = Leave(gda: Word, vid: nat, uport: int, timeout: nat)

  datatype Ticked = Ticked(snoop: Snoop, queue: seq<Leave>)

  /** --timeout on 8 bits. */
  function Countdown(timeout: nat): nat {
    (timeout + 255) % 256
  }

  /**
   The walk over records k, k+1, ...; started says that a record was already passed. A
   record whose group is unknown ends the walk when it is the first one. Later in the
   walk it is visited twice and wraps to 255.
   */
  function Tick(s: Snoop, q: seq<Leave>, k: nat, started: bool): (r: Ticked)
    requires WellFormed(s) && k <= |q|
    ensures WellFormed(r.snoop)
    decreases |q| - k
  {
    if k == |q| then Ticked(s, [])
    else
      var left := Countdown(q[k].timeout);
      var i := Find(s.db, q[k].vid, q[k].gda, 0);
      if left == 0 && i < |s.db| then
        Tick(Expire(s, i, q[k].uport), q, k + 1, true)
      else if left == 0 && !started then
        Ticked(s, [q[k].(timeout := 0)] + q[k + 1..])
      else
        var r := Tick(s, q, k + 1, true);
        r.(queue := [q[k].(timeout := if left == 0 then 255 else left)] + r.queue)
  }

  /** The queue without the records that run out, each other timeout one lower. */
  function Survivors(q: seq<Leave>, k: nat): seq<Leave>
    requires k <= |q|
    decreases |q| - k
  {
    if k == |q| then []
    else if q[k].timeout <= 1 then Survivors(q, k + 1)
    else [q[k].(timeout := q[k].timeout - 1)] + Survivors(q, k + 1)
  }

  function RecordId(r: Leave): GroupId {
    GroupId(r.vid % VID_LIMIT, Address(r.gda))
  }

  function RecordKey(r: Leave): L2Key {
    L2Key(r.vid % VID_LIMIT, ComposeMac(r.gda))
  }

  /** The record's group is in the database with the record's port in its list. */
  predicate Listed(s: Snoop, r: Leave) {
    WellFormed(s) && IsValid(r.gda) &&
    var i := Find(s.db, r.vid, r.gda, 0);
    i < |s.db| && r.uport in s.lists[i].uplist
  }

  predicate SameLeave(a: Leave, b: Leave) {
    RecordId(a) == RecordId(b) && a.uport == b.uport
  }

  /** Record j of the queue runs out in this tick. */
  predicate ExpiresAt(q: seq<Leave>, j: int) {
    0 <= j < |q| && q[j].timeout == 1
  }

  // ---------- records and groups ----------

  /** A record's group, found by the search, is the one the record names. */
  lemma FindsNamed(s: Snoop, r: Leave)
    requires DbInv(s) && IsValid(r.gda) && Find(s.db, r.vid, r.gda, 0) < |s.db|
    ensures
      var e := s.db[Find(s.db, r.vid, r.gda, 0)];
      IsValid(e.gda) && IdOf(e) == RecordId(r) && L2KeyOf(e) == RecordKey(r)
  {
    var e := s.db[Find(s.db, r.vid, r.gda, 0)];
    AddressFacts(r.gda);
    AddressFacts(e.gda);
    MacIsLow23(e.gda, r.gda);
  }

  lemma HolderIsFound(s: Snoop, r: Leave, j: nat)
    requires DbInv(s) && IsValid(r.gda) && j < |s.db| && IsValid(s.db[j].gda) && IdOf(s.db[j]) == RecordId(r)
    ensures Find(s.db, r.vid, r.gda, 0) == j
  {
    assert Names(s.db[j], r.vid, r.gda);
    FindsNamed(s, r);
  }

  lemma ListedIsHolding(s: Snoop, r: Leave)
    requires DbInv(s) && IsValid(r.gda)
    ensures Listed(s, r) <==> RecordId(r) in Holders(s, RecordKey(r), r.uport)
  {
    var i := Find(s.db, r.vid, r.gda, 0);
    if Listed(s, r) {
      FindsNamed(s, r);
      assert UsesAt(s, false, i, RecordKey(r), r.uport);
    }
    if RecordId(r) in Holders(s, RecordKey(r), r.uport) {
      var j :| 0 <= j < |s.db| && UsesAt(s, false, j, RecordKey(r), r.uport) && IdOf(s.db[j]) == RecordId(r);
      HolderIsFound(s, r, j);
    }
  }

  // ---------- the queue ----------

  /** The record's group is in the database. */
  predicate Known(s: Snoop, r: Leave) {
    Find(s.db, r.vid, r.gda, 0) < |s.db|
  }

  /** The ports in the list of the record's group. */
  function GroupPorts(s: Snoop, r: Leave): set<int>
    requires WellFormed(s)
  {
    if Known(s, r) then s.lists[Find(s.db, r.vid, r.gda, 0)].uplist else {}
  }

  /** Record l runs out too, before record j and for the same group. */
  predicate EarlierAt(q: seq<Leave>, k: int, j: int, l: int) {
    k <= l < j < |q| && ExpiresAt(q, l) && RecordId(q[l]) == RecordId(q[j])
  }

  /** The ports that the records of the same group take away between k and j. */
  function TakenBefore(q: seq<Leave>, k: int, j: int): set<int> {
    set l | k <= l < j && EarlierAt(q, k, j, l) :: q[l].uport
  }

  /** The group of record j is known, and the walk still finds it: earlier records leave it a port. */
  predicate StillKnown(s: Snoop, q: seq<Leave>, k: nat, j: nat)
    requires WellFormed(s) && j < |q|
  {
    Known(s, q[j]) && (TakenBefore(q, k, j) == {} || GroupPorts(s, q[j]) - TakenBefore(q, k, j) != {})
  }

  /** Record j counts down, or runs out while its group is still known. */
  predicate Regular(s: Snoop, q: seq<Leave>, k: nat, j: nat)
    requires WellFormed(s) && j < |q|
  {
    q[j].timeout >= 1 && (q[j].timeout == 1 ==> StillKnown(s, q, k, j))
  }

  /** 8-bit timeouts, and group addresses with their top bit set. */
  ghost predicate Queued(q: seq<Leave>) {
    forall j {:trigger q[j]} :: 0 <= j < |q| ==> q[j].timeout < 256 && IsValid(q[j].gda)
  }

  lemma KnownIsGroup(s: Snoop, r: Leave)
    requires DbInv(s) && IsValid(r.gda)
    ensures Known(s, r) <==> RecordId(r) in Groups(s)
  {
    if Known(s, r) {
      FindsNamed(s, r);
      assert GroupAt(s, Find(s.db, r.vid, r.gda, 0));
    }
    if RecordId(r) in Groups(s) {
      var j :| 0 <= j < |s.db| && GroupAt(s, j) && IdOf(s.db[j]) == RecordId(r);
      HolderIsFound(s, r, j);
    }
  }

  lemma GroupPortsHold(s: Snoop, r: Leave, p: int)
    requires DbInv(s) && IsValid(r.gda)
    ensures p in GroupPorts(s, r) <==> RecordId(r) in Holders(s, RecordKey(r), p)
  {
    ListedIsHolding(s, r.(uport := p));
  }

  /** What an expiring record of a known group does to the group of another record. */
  lemma ExpireKnown(s: Snoop, r: Leave, other: Leave)
    requires DbInv(s) && IsValid(r.gda) && IsValid(other.gda) && Known(s, r)
    ensures
      var t := Expire(s, Find(s.db, r.vid, r.gda, 0), r.uport);
      DbInv(t) &&
      if RecordId(r) == RecordId(other) then
        GroupPorts(t, other) == GroupPorts(s, other) - {r.uport} && Known(s, other) &&
        (Known(t, other) <==> GroupPorts(s, other) - {r.uport} != {})
      else GroupPorts(t, other) == GroupPorts(s, other) && (Known(t, other) <==> Known(s, other))
  {
    var i := Find(s.db, r.vid, r.gda, 0);
    var t := Expire(s, i, r.uport);
    FindsNamed(s, r);
    ExpireKeepsInv(s, i, r.uport);
    ExpireGroups(s, i, r.uport);
    KnownIsGroup(s, other);
    KnownIsGroup(t, other);
    if RecordId(r) == RecordId(other) {
      HolderIsFound(s, other, i);
    }
    forall p ensures p in GroupPorts(t, other) <==>
                     p in GroupPorts(s, other) && !(RecordId(r) == RecordId(other) && p == r.uport)
    {
      GroupPortsHold(s, other, p);
      GroupPortsHold(t, other, p);
      ExpireView(s, i, r.uport, false, RecordKey(other), p);
    }
  }

  lemma TakenBeforeMore(q: seq<Leave>, k: nat, j: nat)
    requires k < j < |q|
    ensures TakenBefore(q, k, j) == TakenBefore(q, k + 1, j) + if EarlierAt(q, k, j, k) then {q[k].uport} else {}
  {
    forall p | p in TakenBefore(q, k, j)
      ensures p in TakenBefore(q, k + 1, j) + if EarlierAt(q, k, j, k) then {q[k].uport} else {}
    {
      var l :| k <= l < j && EarlierAt(q, k, j, l) && q[l].uport == p;
      assert l == k || EarlierAt(q, k + 1, j, l);
    }
    forall p | p in TakenBefore(q, k + 1, j) ensures p in TakenBefore(q, k, j) {
      var l :| k + 1 <= l < j && EarlierAt(q, k + 1, j, l) && q[l].uport == p;
      assert EarlierAt(q, k, j, l);
    }
  }

  /** Whether later records are still known carries over an expiry. */
  lemma RegularAfterExpiry(s: Snoop, q: seq<Leave>, k: nat, j: nat)
    requires DbInv(s) && Queued(q) && ExpiresAt(q, k) && Known(s, q[k]) && k < j < |q|
    ensures
      var t := Expire(s, Find(s.db, q[k].vid, q[k].gda, 0), q[k].uport);
      DbInv(t) && (Regular(s, q, k, j) <==> Regular(t, q, k + 1, j))
  {
    ExpireKnown(s, q[k], q[j]);
    TakenBeforeMore(q, k, j);
    var ports, later := GroupPorts(s, q[j]), TakenBefore(q, k + 1, j);
    assert ports - ({q[k].uport} + later) == ports - {q[k].uport} - later;
  }

  lemma RegularAfterPassing(s: Snoop, q: seq<Leave>, k: nat, j: nat)
    requires WellFormed(s) && k < j < |q| && !ExpiresAt(q, k)
    ensures Regular(s, q, k, j) <==> Regular(s, q, k + 1, j)
  {
    TakenBeforeMore(q, k, j);
  }

  /** The groups after record k of the walk. */
  function AfterRecord(s: Snoop, q: seq<Leave>, k: nat): (t: Snoop)
    requires WellFormed(s) && k < |q|
    ensures WellFormed(t)
  {
    if q[k].timeout == 1 && Known(s, q[k]) then Expire(s, Find(s.db, q[k].vid, q[k].gda, 0), q[k].uport) else s
  }

  /** One more record of the walk: it is counted down, unlinked, or stays although it ran out. */
  lemma TickUnfolds(s: Snoop, q: seq<Leave>, k: nat, started: bool)
    requires WellFormed(s) && k < |q| && Queued(q)
    ensures
      var (after, rest) := (Tick(s, q, k, started).queue, Tick(AfterRecord(s, q, k), q, k + 1, true).queue);
      if q[k].timeout == 1 && Known(s, q[k]) then
        after == rest && Survivors(q, k) == Survivors(q, k + 1)
      else if q[k].timeout >= 2 then
        after == [q[k].(timeout := q[k].timeout - 1)] + rest &&
        Survivors(q, k) == [q[k].(timeout := q[k].timeout - 1)] + Survivors(q, k + 1)
      else
        |after| > (if started || q[k].timeout == 0 then |rest| else |Survivors(q, k + 1)|) &&
        Survivors(q, k) == Survivors(q, k + 1)
  {
    assert Countdown(q[k].timeout) == if q[k].timeout == 0 then 255 else q[k].timeout - 1;
    SurvivorsAreCounted(q, k + 1);
  }

  lemma EnoughBefore(s: Snoop, q: seq<Leave>, k: nat, started: bool) returns (t: Snoop)
    requires WellFormed(s) && k < |q| && Queued(q)
    ensures WellFormed(t)
    ensures |Tick(t, q, k + 1, true).queue| >= |Survivors(q, k + 1)| ==>
              |Tick(s, q, k, started).queue| >= |Survivors(q, k)|
  {
    TickUnfolds(s, q, k, started);
    t := AfterRecord(s, q, k);
  }

  /** A tick never leaves fewer records than it should. */
  lemma {:induction false} TickKeepsEnough(s: Snoop, q: seq<Leave>, k: nat, started: bool)
    requires WellFormed(s) && k <= |q| && Queued(q)
    ensures |Tick(s, q, k, started).queue| >= |Survivors(q, k)|
    decreases |q| - k
  {
    if k == |q| {
    } else {
      var t := EnoughBefore(s, q, k, started);
      TickKeepsEnough(t, q, k + 1, true);
    }
  }

  ghost predicate AllRegular(s: Snoop, q: seq<Leave>, k: nat)
    requires WellFormed(s)
  {
    forall j {:trigger Regular(s, q, k, j)} :: k <= j < |q| ==> Regular(s, q, k, j)
  }

  /** An irregular record stays, and the queue is longer than it should be. */
  lemma IrregularStays(s: Snoop, q: seq<Leave>, k: nat, started: bool)
    requires WellFormed(s) && k < |q| && Queued(q) && !Regular(s, q, k, k)
    ensures |Tick(s, q, k, started).queue| > |Survivors(q, k)|
  {
    assert TakenBefore(q, k, k) == {};
    TickUnfolds(s, q, k, started);
    TickKeepsEnough(s, q, k + 1, true);
  }

  lemma AllRegularAfterExpiry(s: Snoop, q: seq<Leave>, k: nat)
    requires DbInv(s) && Queued(q) && ExpiresAt(q, k) && Regular(s, q, k, k)
    ensures
      var t := Expire(s, Find(s.db, q[k].vid, q[k].gda, 0), q[k].uport);
      t == AfterRecord(s, q, k) && DbInv(t) && (AllRegular(s, q, k) <==> AllRegular(t, q, k + 1))
  {
    var t := Expire(s, Find(s.db, q[k].vid, q[k].gda, 0), q[k].uport);
    ExpireKnown(s, q[k], q[k]);
    if AllRegular(s, q, k) {
      var l := k + 1;
      forall j | l <= j < |q| ensures Regular(t, q, l, j) {
        RegularAfterExpiry(s, q, k, j);
        assert Regular(s, q, k, j);
      }
    }
    if AllRegular(t, q, k + 1) {
      forall j | k <= j < |q| ensures Regular(s, q, k, j) {
        if j > k {
          RegularAfterExpiry(s, q, k, j);
          assert Regular(t, q, k + 1, j);
        }
      }
    }
  }

  lemma AllRegularAfterPassing(s: Snoop, q: seq<Leave>, k: nat)
    requires WellFormed(s) && k < |q| && !ExpiresAt(q, k) && Regular(s, q, k, k)
    ensures AllRegular(s, q, k) <==> AllRegular(s, q, k + 1)
  {
    if AllRegular(s, q, k) {
      var l := k + 1;
      forall j | l <= j < |q| ensures Regular(s, q, l, j) {
        RegularAfterPassing(s, q, k, j);
        assert Regular(s, q, k, j);
      }
    }
    if AllRegular(s, q, k + 1) {
      forall j | k <= j < |q| ensures Regular(s, q, k, j) {
        if j > k {
          RegularAfterPassing(s, q, k, j);
          assert Regular(s, q, k + 1, j);
        }
      }
    }
  }

  lemma SameRest(r: Leave, a: seq<Leave>, b: seq<Leave>)
    ensures [r] + a == [r] + b <==> a == b
  {
    assert ([r] + a)[1..] == a && ([r] + b)[1..] == b;
  }

  /** Past a regular record, the law of the queue is a matter of the records behind it. */
  lemma RegularIsPassed(s: Snoop, q: seq<Leave>, k: nat, started: bool) returns (t: Snoop)
    requires DbInv(s) && k < |q| && Queued(q) && Regular(s, q, k, k)
    ensures DbInv(t) && (AllRegular(s, q, k) <==> AllRegular(t, q, k + 1))
    ensures Tick(s, q, k, started).queue == Survivors(q, k) <==>
            Tick(t, q, k + 1, true).queue == Survivors(q, k + 1)
  {
    TickUnfolds(s, q, k, started);
    if ExpiresAt(q, k) {
      AllRegularAfterExpiry(s, q, k);
      t := AfterRecord(s, q, k);
    } else {
      AllRegularAfterPassing(s, q, k);
      SameRest(q[k].(timeout := q[k].timeout - 1), Tick(s, q, k + 1, true).queue, Survivors(q, k + 1));
      t := s;
    }
  }

  /**
   The law of the queue, and exactly when it holds: a tick leaves the old queue without the
   records that run out, each other timeout one lower, if and only if no timeout is 0 and
   every record that runs out still finds its group when the walk gets there.
   */
  lemma {:induction false} TickLeavesSurvivorsExactly(s: Snoop, q: seq<Leave>, k: nat, started: bool)
    requires DbInv(s) && k <= |q| && Queued(q)
    ensures Tick(s, q, k, started).queue == Survivors(q, k) <==> AllRegular(s, q, k)
    decreases |q| - k
  {
    if k < |q| {
      if Regular(s, q, k, k) {
        var t := RegularIsPassed(s, q, k, started);
        TickLeavesSurvivorsExactly(t, q, k + 1, true);
      } else {
        IrregularStays(s, q, k, started);
      }
    } else {
    }
  }

  lemma ListedIsStillKnown(s: Snoop, q: seq<Leave>, j: nat)
    requires DbInv(s) && ExpiresAt(q, j) && (Known(s, q[j]) ==> Listed(s, q[j]))
    requires forall l :: 0 <= l < j && ExpiresAt(q, l) ==> !SameLeave(q[l], q[j])
    ensures StillKnown(s, q, 0, j) <==> Known(s, q[j])
  {
    if Known(s, q[j]) {
      assert q[j].uport in GroupPorts(s, q[j]) - TakenBefore(q, 0, j);
    }
  }

  /** Of distinct records, listed if their group is known, it is enough to ask whether each group is known. */
  lemma ListedNeedsOnlyKnown(s: Snoop, q: seq<Leave>)
    requires DbInv(s) && Queued(q) && forall j {:trigger q[j]} :: 0 <= j < |q| ==> q[j].timeout >= 1
    requires forall j :: ExpiresAt(q, j) && Known(s, q[j]) ==> Listed(s, q[j])
    requires forall j, l :: 0 <= j < l && ExpiresAt(q, j) && ExpiresAt(q, l) ==> !SameLeave(q[j], q[l])
    ensures Tick(s, q, 0, false).queue == Survivors(q, 0) <==> forall j :: ExpiresAt(q, j) ==> Known(s, q[j])
  {
    TickLeavesSurvivorsExactly(s, q, 0, false);
    forall j | 0 <= j < |q| ensures Regular(s, q, 0, j) <==> ExpiresAt(q, j) ==> Known(s, q[j]) {
      if ExpiresAt(q, j) {
        ListedIsStillKnown(s, q, j);
      }
    }
  }

  /** Two records run out together, one of a port that is not listed: the group goes, and the other record stays. */
  lemma UnlistedPortStays() returns (s: Snoop, q: seq<Leave>)
    ensures DbInv(s) && Queued(q) && |q| == 2 && forall j :: 0 <= j < 2 ==> ExpiresAt(q, j) && Known(s, q[j])
    ensures Survivors(q, 0) == [] && Tick(s, q, 0, false).queue == [q[1].(timeout := 255)]
  {
    var g := 0xE100_0001;
    s := Snoop([DbEntry(g, 1)], [PortLists({}, {1})], map[], [], 0);
    q := [Leave(g, 1, 1, 1), Leave(g, 1, 2, 1)];
    assert Find(s.db, 1, g, 0) == 0;
    ExpireKnown(s, q[0], q[1]);
    var t := Expire(s, 0, 1);
    assert GroupPorts(s, q[1]) - {1} == {};
    assert Survivors(q, 2) == [] && Survivors(q, 1) == [];
    assert Tick(t, q, 2, true).queue == [];
    assert Tick(t, q, 1, true).queue == [q[1].(timeout := 255)];
  }

  /** A first record whose group is gone stops the countdown of the whole queue. */
  lemma LostGroupStopsTheWalk(s: Snoop, q: seq<Leave>)
    requires WellFormed(s) && |q| >= 1 && q[0].timeout == 1 && Find(s.db, q[0].vid, q[0].gda, 0) == |s.db|
    ensures Tick(s, q, 0, false) == Ticked(s, q[0 := q[0].(timeout := 0)])
    ensures |q| >= 2 && q[1].timeout >= 1 ==> Tick(s, q, 0, false).queue != Survivors(q, 0)
  {
    assert [q[0].(timeout := 0)] + q[1..] == q[0 := q[0].(timeout := 0)];
    if |q| >= 2 {
      SurvivorsAreCounted(q, 1);
    }
  }

  lemma {:induction false} SurvivorsAreCounted(q: seq<Leave>, k: nat)
    requires k <= |q|
    ensures |Survivors(q, k)| <= |q| - k
    decreases |q| - k
  {
    if k == |q| {
    } else {
      SurvivorsAreCounted(q, k + 1);
    }
  }

  // ---------- the walk looks only ahead ----------

  lemma {:induction false} TickLooksAhead(s: Snoop, q: seq<Leave>, k: nat, r: seq<Leave>, l: nat, started: bool)
    requires WellFormed(s) && k <= |q| && l <= |r| && q[k..] == r[l..]
    ensures Tick(s, q, k, started) == Tick(s, r, l, started)
    decreases |q| - k
  {
    if k == |q| {
    } else {
      assert q[k] == q[k..][0] && r[l] == r[l..][0];
      assert q[k + 1..] == q[k..][1..] && r[l + 1..] == r[l..][1..];
      TickLooksAhead(s, q, k + 1, r, l + 1, true);
      var i := Find(s.db, q[k].vid, q[k].gda, 0);
      if i < |s.db| {
        TickLooksAhead(Expire(s, i, q[k].uport), q, k + 1, r, l + 1, true);
      }
    }
  }

  /** The walk has reached record k of a queue; the records before it are final. */
  function TickFrom(s: Snoop, q: seq<Leave>, k: nat, started: bool): Ticked
    requires WellFormed(s) && k <= |q|
  {
    var r := Tick(s, q, k, started);
    r.(queue := q[..k] + r.queue)
  }

  /** Passing a record that still counts, or that has wrapped. */
  lemma TickPasses(s: Snoop, q: seq<Leave>, k: nat, started: bool, q': seq<Leave>)
    requires WellFormed(s) && k < |q| && Countdown(q[k].timeout) != 0
    requires q' == q[k := q[k].(timeout := Countdown(q[k].timeout))]
    ensures TickFrom(s, q, k, started) == TickFrom(s, q', k + 1, true)
  {
    TickLooksAhead(s, q, k + 1, q', k + 1, true);
    var r := Tick(s, q, k + 1, true);
    assert q'[..k + 1] + r.queue == q[..k] + ([q'[k]] + r.queue);
  }

  /** Unlinking a record whose group is known. */
  lemma TickUnlinks(s: Snoop, q: seq<Leave>, k: nat, started: bool, q': seq<Leave>)
    requires WellFormed(s) && k < |q| && Countdown(q[k].timeout) == 0
    requires Find(s.db, q[k].vid, q[k].gda, 0) < |s.db| && q' == q[..k] + q[k + 1..]
    ensures
      var i := Find(s.db, q[k].vid, q[k].gda, 0);
      TickFrom(s, q, k, started) == TickFrom(Expire(s, i, q[k].uport), q', k, true)
  {
    TickLooksAhead(Expire(s, Find(s.db, q[k].vid, q[k].gda, 0), q[k].uport), q, k + 1, q', k, true);
  }

  /** A record whose group is unknown: the walk ends at the first one, and visits a later one again. */
  lemma TickLosesGroup(s: Snoop, q: seq<Leave>, k: nat, started: bool, q': seq<Leave>)
    requires WellFormed(s) && k < |q| && Countdown(q[k].timeout) == 0
    requires Find(s.db, q[k].vid, q[k].gda, 0) == |s.db| && q' == q[k := q[k].(timeout := 0)]
    ensures TickFrom(s, q, k, started) == if started then TickFrom(s, q', k, true) else Ticked(s, q')
  {
    if started {
      TickLooksAhead(s, q, k + 1, q', k + 1, true);
    } else {
      assert q' == q[..k] + ([q'[k]] + q[k + 1..]);
    }
  }

  // ---------- a leave message arrives ----------

  /** The first record of this group and port from position k on. */
  function Position(q: seq<Leave>, vid: nat, gda: Word, uport: int, k: nat): (p: nat)
    requires k <= |q|
    ensures k <= p <= |q|
    decreases |q| - k
  {
    if k == |q| || (q[k].vid == vid && q[k].gda == gda && q[k].uport == uport) then k
    else Position(q, vid, gda, uport, k + 1)
  }

  /**
   A record for a known group goes to the front, unless there is one already, which
   keeps the smaller timeout; a full queue takes no new record.
   */
  function Inserted(q: seq<Leave>, r: Leave, known: bool): (bool, seq<Leave>) {
    var k := Position(q, r.vid, r.gda, r.uport, 0);
    if !known then (false, q)
    else if k < |q| then (true, q[k := q[k].(timeout := if q[k].timeout < r.timeout then q[k].timeout else r.timeout)])
    else if |q| < MAX_IGMP_LEAVE then (true, [r] + q)
    else (false, q)
  }

  /** A query for a group sets the timeout of each of its records. */
  function Granted(q: seq<Leave>, vid: nat, gda: Word): seq<Leave> {
    seq(|q|, i requires 0 <= i < |q| =>
      if q[i].vid == vid && q[i].gda == gda then q[i].(timeout := IGMP_LEAVE_TIMEOUT) else q[i])
  }

  /** A report takes back the first record of its group and port. */
  function Withdrawn(q: seq<Leave>, vid: nat, gda: Word, uport: int): (bool, seq<Leave>) {
    var k := Position(q, vid, gda, uport, 0);
    if k < |q| then (true, q[..k] + q[k + 1..]) else (false, q)
  }

  /** What leave messages carry: a class D address and a 12-bit VLAN id. */
  predicate FromMessage(r: Leave) {
    IsMulticast(r.gda) && r.vid < VID_LIMIT
  }

  /** Every record came from a message, and no two are for the same group and port. */
  ghost predicate NoDoubles(q: seq<Leave>) {
    (forall j {:trigger q[j]} :: 0 <= j < |q| ==> FromMessage(q[j])) &&
    forall j, l :: 0 <= j < l < |q| ==> !SameLeave(q[j], q[l])
  }

  lemma {:induction false} PositionFinds(q: seq<Leave>, r: Leave, k: nat)
    requires k <= |q| && NoDoubles(q) && FromMessage(r) && Position(q, r.vid, r.gda, r.uport, k) == |q|
    ensures forall j :: k <= j < |q| ==> !SameLeave(r, q[j])
    decreases |q| - k
  {
    if k == |q| {
    } else {
      PositionFinds(q, r, k + 1);
      assert FromMessage(q[k]);
    }
  }

  /** A leave message never puts a second record for one group and port into the queue. */
  lemma InsertedHasNoDoubles(q: seq<Leave>, r: Leave, known: bool)
    requires NoDoubles(q) && FromMessage(r)
    ensures NoDoubles(Inserted(q, r, known).1)
    ensures
      var (ok, q') := Inserted(q, r, known);
      ok ==> exists k :: 0 <= k < |q'| && SameLeave(q'[k], r)
  {
    var k, q' := Position(q, r.vid, r.gda, r.uport, 0), Inserted(q, r, known).1;
    if Inserted(q, r, known).0 {
      if k < |q| {
        PositionHit(q, r, 0);
        assert SameLeave(q'[k], r);
      } else {
        PositionFinds(q, r, 0);
        assert SameLeave(q'[0], r);
      }
    }
  }

  lemma {:induction false} PositionHit(q: seq<Leave>, r: Leave, i: nat)
    requires i <= |q| && Position(q, r.vid, r.gda, r.uport, i) < |q|
    ensures
      var hit := q[Position(q, r.vid, r.gda, r.uport, i)];
      hit.gda == r.gda && SameLeave(hit, r)
    decreases |q| - i
  {
    if q[i].vid == r.vid && q[i].gda == r.gda && q[i].uport == r.uport {
    } else {
      PositionHit(q, r, i + 1);
    }
  }

  lemma GrantedHasNoDoubles(q: seq<Leave>, vid: nat, gda: Word)
    requires NoDoubles(q)
    ensures NoDoubles(Granted(q, vid, gda))
  {
    var r := Granted(q, vid, gda);
    forall j {:trigger r[j]} | 0 <= j < |r| ensures FromMessage(r[j]) && SameLeave(r[j], q[j]) {
      assert FromMessage(q[j]);
    }
    forall j, l | 0 <= j < l < |r| ensures !SameLeave(r[j], r[l]) {
      assert !SameLeave(q[j], q[l]);
    }
  }

  /** After a report no record for its group and port is left. */
  lemma WithdrawnHasNoDoubles(q: seq<Leave>, r: Leave)
    requires NoDoubles(q) && FromMessage(r)
    ensures
      var q' := Withdrawn(q, r.vid, r.gda, r.uport).1;
      NoDoubles(q') && forall j :: 0 <= j < |q'| ==> !SameLeave(q'[j], r)
  {
    var k, q' := Position(q, r.vid, r.gda, r.uport, 0), Withdrawn(q, r.vid, r.gda, r.uport).1;
    if k < |q| {
      PositionHit(q, r, 0);
      forall j | 0 <= j < |q'| ensures !SameLeave(q'[j], r) {
        assert q'[j] == q[if j < k then j else j + 1];
        assert if j < k then !SameLeave(q[j], q[k]) else !SameLeave(q[k], q[j + 1]);
      }
    } else {
      PositionFinds(q, r, 0);
    }
  }

  predicate OccursFrom(q: seq<Leave>, k: nat, r: Leave) {
    exists j :: k <= j < |q| && SameLeave(q[j], r)
  }

  /** Nor does a tick, whatever the state of the groups. */
  lemma {:induction false} TickHasNoDoubles(s: Snoop, q: seq<Leave>, k: nat, started: bool)
    requires WellFormed(s) && k <= |q| && NoDoubles(q)
    ensures NoDoubles(Tick(s, q, k, started).queue)
    ensures forall i :: 0 <= i < |Tick(s, q, k, started).queue| ==> OccursFrom(q, k, Tick(s, q, k, started).queue[i])
    decreases |q| - k
  {
    var r := Tick(s, q, k, started);
    if k == |q| {
    } else {
      var i := Find(s.db, q[k].vid, q[k].gda, 0);
      if Countdown(q[k].timeout) == 0 && i < |s.db| {
        TickHasNoDoubles(Expire(s, i, q[k].uport), q, k + 1, true);
        LaterOccurs(q, k, r.queue);
      } else if Countdown(q[k].timeout) == 0 && !started {
        assert r.queue == q[k..][0 := q[k].(timeout := 0)];
        forall h | 0 <= h < |r.queue| ensures OccursFrom(q, k, r.queue[h]) {
          assert SameLeave(q[k + h], r.queue[h]);
        }
      } else {
        TickHasNoDoubles(s, q, k + 1, true);
        PrependKeeps(q, k, Tick(s, q, k + 1, true).queue, r.queue[0]);
      }
    }
  }

  lemma LaterOccurs(q: seq<Leave>, k: nat, rest: seq<Leave>)
    requires forall i :: 0 <= i < |rest| ==> OccursFrom(q, k + 1, rest[i])
    ensures forall i :: 0 <= i < |rest| ==> OccursFrom(q, k, rest[i])
  {
    forall i | 0 <= i < |rest| ensures OccursFrom(q, k, rest[i]) {
      assert OccursFrom(q, k + 1, rest[i]);
    }
  }

  lemma PrependKeeps(q: seq<Leave>, k: nat, rest: seq<Leave>, r: Leave)
    requires NoDoubles(q) && NoDoubles(rest) && k < |q| && FromMessage(r) && SameLeave(q[k], r)
    requires forall i :: 0 <= i < |rest| ==> OccursFrom(q, k + 1, rest[i])
    ensures NoDoubles([r] + rest)
    ensures forall i :: 0 <= i < |rest| + 1 ==> OccursFrom(q, k, ([r] + rest)[i])
  {
    LaterOccurs(q, k, rest);
    forall i | 0 <= i < |rest| ensures !SameLeave(r, rest[i]) {
      assert OccursFrom(q, k + 1, rest[i]);
      var j :| k + 1 <= j < |q| && SameLeave(q[j], rest[i]);
      assert !SameLeave(q[k], q[j]);
    }
    assert OccursFrom(q, k, ([r] + rest)[0]);
  }

  // ---------- any run of the queue ----------

  /** A leave message, a query, a report, or a second that passes; the groups may be any at that moment. */
  datatype QueueStep =
    | Arrive(r: Leave, known: bool)
    | Grant(vid: nat, gda: Word)
    | Withdraw(r: Leave)
    | Second(groups: Snoop)

  predicate LegalStep(step: QueueStep) {
    match step
    case Arrive(r, _) => FromMessage(r) && r.timeout == IGMP_LEAVE_TIMEOUT
    case Grant(_, _) => true
    case Withdraw(r) => FromMessage(r)
    case Second(groups) => WellFormed(groups)
  }

  function NextQueue(q: seq<Leave>, step: QueueStep): seq<Leave>
    requires LegalStep(step)
  {
    match step
    case Arrive(r, known) => Inserted(q, r, known).1
    case Grant(vid, gda) => Granted(q, vid, gda)
    case Withdraw(r) => Withdrawn(q, r.vid, r.gda, r.uport).1
    case Second(groups) => Tick(groups, q, 0, false).queue
  }

  ghost predicate IsQueueRun(qs: seq<seq<Leave>>, steps: seq<QueueStep>) {
    |qs| == |steps| + 1 && qs[0] == [] &&
    forall k :: 0 <= k < |steps| ==> LegalStep(steps[k]) && qs[k + 1] == NextQueue(qs[k], steps[k])
  }

  /** The timeouts fit 8 bits. */
  ghost predicate Timed(q: seq<Leave>) {
    forall j {:trigger q[j]} :: 0 <= j < |q| ==> q[j].timeout < 256
  }

  lemma {:induction false} TickIsTimed(s: Snoop, q: seq<Leave>, k: nat, started: bool)
    requires WellFormed(s) && k <= |q| && Timed(q)
    ensures Timed(Tick(s, q, k, started).queue)
    decreases |q| - k
  {
    if k == |q| {
    } else {
      var i := Find(s.db, q[k].vid, q[k].gda, 0);
      if Countdown(q[k].timeout) == 0 && i < |s.db| {
        TickIsTimed(Expire(s, i, q[k].uport), q, k + 1, true);
      } else {
        TickIsTimed(s, q, k + 1, true);
      }
    }
  }

  lemma NextQueueKeeps(q: seq<Leave>, step: QueueStep)
    requires NoDoubles(q) && Timed(q) && LegalStep(step)
    ensures NoDoubles(NextQueue(q, step)) && Timed(NextQueue(q, step))
  {
    match step
    case Arrive(r, known) => InsertedHasNoDoubles(q, r, known);
    case Grant(vid, gda) => GrantedHasNoDoubles(q, vid, gda);
    case Withdraw(r) => WithdrawnHasNoDoubles(q, r);
    case Second(groups) => TickHasNoDoubles(groups, q, 0, false); TickIsTimed(groups, q, 0, false);
  }

  /** In no run are there ever two records for one group and port. */
  lemma {:induction false} EveryRunHasNoDoubles(qs: seq<seq<Leave>>, steps: seq<QueueStep>, k: nat)
    requires IsQueueRun(qs, steps) && k < |qs|
    ensures NoDoubles(qs[k]) && Queued(qs[k])
  {
    if k == 0 {
    } else {
      EveryRunHasNoDoubles(qs, steps, k - 1);
      NextQueueKeeps(qs[k - 1], steps[k - 1]);
    }
    forall j {:trigger qs[k][j]} | 0 <= j < |qs[k]| ensures IsValid(qs[k][j].gda) {
      assert FromMessage(qs[k][j]);
    }
  }

  /** So the law of the queue, with its exact condition, is a law of every second of every run. */
  lemma EverySecondCountsDown(qs: seq<seq<Leave>>, steps: seq<QueueStep>, k: nat)
    requires IsQueueRun(qs, steps) && k < |steps| && steps[k].Second? && DbInv(steps[k].groups)
    ensures qs[k + 1] == Survivors(qs[k], 0) <==> AllRegular(steps[k].groups, qs[k], 0)
  {
    EveryRunHasNoDoubles(qs, steps, k);
    TickLeavesSurvivorsExactly(steps[k].groups, qs[k], 0, false);
  }
}
