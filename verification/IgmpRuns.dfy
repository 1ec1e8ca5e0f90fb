/**
 Runs of IGMP snooping from the empty database: reports, leave messages, queries and
 seconds, with the leave queue and the ageing.
 */
module IgmpRuns {
  import opened Uplists
  import opened Words
  import opened IgmpGroups
  import opened IgmpLeaves
  import opened IgmpMessages
  import opened IgmpEntries
  import opened IgmpReports
  import opened IgmpPioneers
  import opened IgmpAgeing

  datatype Net = Net(groups: Snoop, queue: seq<Leave>)

  /**
   A report (of version 2 or not, for a local group or not), a leave message or a query
   that arrives, or a second that passes, with the ageing when its interval is over.
   */
  datatype Event =
    | ReportIn(vid: nat, gda: Word, port: int, v2: bool, isLocal: bool, room: bool)
    | LeaveIn(vid: nat, gda: Word, port: int)
    | QueryIn(vid: nat, gda: Word)
    | SecondOver(ages: bool)

  predicate LegalEvent(e: Event) {
    match e
    case ReportIn(vid, gda, port, _, _, _) => Reportable(vid, gda) && port in ALL_PORTS
    case LeaveIn(vid, gda, port) => Reportable(vid, gda) && port in ALL_PORTS
    case _ => true
  }

  function NextNet(n: Net, e: Event): Net
    requires WellFormed(n.groups) && LegalEvent(e)
  {
    match e
    case ReportIn(vid, gda, port, v2, isLocal, room) =>
      Net(if isLocal then n.groups else Update(n.groups, vid, gda, {port}, room).0,
          if v2 then Withdrawn(n.queue, vid, gda, port).1 else n.queue)
    case LeaveIn(vid, gda, port) =>
      var r := Leave(gda, vid, port, IGMP_LEAVE_TIMEOUT);
      n.(queue := Inserted(n.queue, r, Known(n.groups, r)).1)
    case QueryIn(vid, gda) => n.(queue := Granted(n.queue, vid, gda))
    case SecondOver(ages) =>
      var t := Tick(n.groups, n.queue, 0, false);
      Net(if ages then AgeFrom(t.snoop, 0) else t.snoop, t.queue)
  }

  /** igmpsnoop_database_init: no group and no record; entries and router records may be any. */
  predicate Vacant(n: Net) {
    WellFormed(n.groups) && n.queue == [] &&
    (forall j :: 0 <= j < |n.groups.db| ==> n.groups.db[j] == DbEntry(0, 0)) &&
    forall j :: 0 <= j < |n.groups.db| ==> n.groups.lists[j] == PortLists({}, {})
  }

  ghost predicate IsNetRun(nets: seq<Net>, events: seq<Event>) {
    |nets| == |events| + 1 && Vacant(nets[0]) &&
    forall k :: 0 <= k < |events| ==>
      WellFormed(nets[k].groups) && LegalEvent(events[k]) && nets[k + 1] == NextNet(nets[k], events[k])
  }

  ghost predicate NetInv(n: Net) {
    DbInv(n.groups) && Tidy(n.groups) && NoDoubles(n.queue) && Timed(n.queue)
  }

  lemma VacantIsSound(n: Net)
    requires Vacant(n)
    ensures NetInv(n)
  {
    assert !IsValid(0);
  }

  lemma NoDoublesIsQueued(q: seq<Leave>)
    requires NoDoubles(q) && Timed(q)
    ensures Queued(q) && LeaveOnce(q)
  {
    forall j {:trigger q[j]} | 0 <= j < |q| ensures IsValid(q[j].gda) {
      assert FromMessage(q[j]);
    }
  }

  lemma NextNetKeepsInv(n: Net, e: Event)
    requires NetInv(n) && LegalEvent(e)
    ensures NetInv(NextNet(n, e))
  {
    match e
    case ReportIn(vid, gda, port, v2, isLocal, room) =>
      UpdateKeepsInv(n.groups, vid, gda, {port}, room);
      UpdateKeepsTidy(n.groups, vid, gda, {port}, room);
      WithdrawnHasNoDoubles(n.queue, Leave(gda, vid, port, IGMP_LEAVE_TIMEOUT));
    case LeaveIn(vid, gda, port) =>
      var r := Leave(gda, vid, port, IGMP_LEAVE_TIMEOUT);
      InsertedHasNoDoubles(n.queue, r, Known(n.groups, r));
    case QueryIn(vid, gda) =>
      GrantedHasNoDoubles(n.queue, vid, gda);
    case SecondOver(ages) =>
      NoDoublesIsQueued(n.queue);
      TickKeepsInv(n.groups, n.queue, 0, false);
      TickKeepsTidy(n.groups, n.queue, 0, false);
      TickHasNoDoubles(n.groups, n.queue, 0, false);
      TickIsTimed(n.groups, n.queue, 0, false);
      AgeFromKeepsInv(Tick(n.groups, n.queue, 0, false).snoop, 0);
      AgeFromKeepsTidy(Tick(n.groups, n.queue, 0, false).snoop, 0);
  }

  /**
   In every state of every run no group is twice in the database, no record twice in the
   queue, age bits stay within the lists and slots that are not in use are empty.
   */
  lemma {:induction false} EveryNetRunKeepsInv(nets: seq<Net>, events: seq<Event>, k: nat)
    requires IsNetRun(nets, events) && k < |nets|
    ensures NetInv(nets[k])
  {
    if k > 0 {
      EveryNetRunKeepsInv(nets, events, k - 1);
      NextNetKeepsInv(nets[k - 1], events[k - 1]);
    } else {
      VacantIsSound(nets[0]);
    }
  }

  /** So in every run the laws of a second need no more than that entry and groups agree before it. */
  lemma EverySecondOfARun(nets: seq<Net>, events: seq<Event>, k: nat, key: L2Key, p: int)
    requires IsNetRun(nets, events) && k < |events| && events[k] == SecondOver(false)
    ensures nets[k + 1].queue == Survivors(nets[k].queue, 0) <==> AllRegular(nets[k].groups, nets[k].queue, 0)
    ensures !RouterPort(nets[k].groups, key.vid, p) && Agrees(nets[k].groups, key, p) ==>
              var s := nets[k].groups;
              var losing := Losing(s, nets[k].queue, key, p);
              (Agrees(nets[k + 1].groups, key, p) <==>
               Holders(s, key, p) - losing == {} || KeptFor(Actives(s, key, p), losing))
  {
    EveryNetRunKeepsInv(nets, events, k);
    NoDoublesIsQueued(nets[k].queue);
    TickLeavesSurvivorsExactly(nets[k].groups, nets[k].queue, 0, false);
    if !RouterPort(nets[k].groups, key.vid, p) && Agrees(nets[k].groups, key, p) {
      TickKeepsL2Exactly(nets[k].groups, nets[k].queue, key, p);
    }
  }

  /** And so it is for reports. */
  lemma EveryReportOfARun(nets: seq<Net>, events: seq<Event>, k: nat, key: L2Key, p: int)
    requires IsNetRun(nets, events) && k < |events| && events[k].ReportIn? && !events[k].isLocal
    requires !RouterPort(nets[k].groups, key.vid, p) && Agrees(nets[k].groups, key, p)
    ensures
      var (s, e) := (nets[k].groups, events[k]);
      Agrees(nets[k + 1].groups, key, p) <==>
      key != L2Key(e.vid, ComposeMac(e.gda)) || !Accepted(s, e.vid, e.gda, e.room) ||
      if Find(s.db, e.vid, e.gda, 0) < |s.db| then p != e.port || InL2(s, key, p) || EntryReached(s, e.vid, e.gda)
      else p == e.port || Holders(s, key, p) == {}
  {
    EveryNetRunKeepsInv(nets, events, k);
    var (s, e) := (nets[k].groups, events[k]);
    ReportKeepsL2Exactly(s, e.vid, e.gda, {e.port}, e.room, key, p);
  }

  /**
   Which message touches what: only reports of groups that are not local touch groups and
   entries; a version 2 report takes back the leave record of its port, an older one does not.
   */
  lemma MessagesTouch(nets: seq<Net>, events: seq<Event>, k: nat)
    requires IsNetRun(nets, events) && k < |events| && !events[k].SecondOver?
    ensures !events[k].ReportIn? || events[k].isLocal ==> nets[k + 1].groups == nets[k].groups
    ensures events[k].ReportIn? ==>
              var r := Leave(events[k].gda, events[k].vid, events[k].port, IGMP_LEAVE_TIMEOUT);
              if events[k].v2 then
                !IsQueued(nets[k + 1].queue, r) && Others(nets[k + 1].queue, r) == Others(nets[k].queue, r)
              else nets[k + 1].queue == nets[k].queue
  {
    EveryNetRunKeepsInv(nets, events, k);
    if events[k].ReportIn? && events[k].v2 {
      WithdrawnMeans(nets[k].queue, Leave(events[k].gda, events[k].vid, events[k].port, IGMP_LEAVE_TIMEOUT));
    }
  }

  /** A leave message queues a record for two seconds at most, if its group is known, and a query gives two seconds. */
  lemma LeavesAndQueriesTouch(nets: seq<Net>, events: seq<Event>, k: nat, t: nat, j: nat)
    requires IsNetRun(nets, events) && k < |events|
    ensures events[k].LeaveIn? ==>
              var r := Leave(events[k].gda, events[k].vid, events[k].port, IGMP_LEAVE_TIMEOUT);
              Others(nets[k + 1].queue, r) == Others(nets[k].queue, r) &&
              if !Known(nets[k].groups, r) then nets[k + 1].queue == nets[k].queue
              else if IsQueued(nets[k].queue, r) then
                QueuedWith(nets[k].queue, r, t) ==> QueuedWith(nets[k + 1].queue, r, if t < 2 then t else 2)
              else |nets[k].queue| < 128 ==> QueuedWith(nets[k + 1].queue, r, 2)
    ensures events[k].QueryIn? && j < |nets[k].queue| ==>
              |nets[k + 1].queue| == |nets[k].queue| &&
              nets[k + 1].queue[j] ==
                if nets[k].queue[j].vid == events[k].vid && nets[k].queue[j].gda == events[k].gda
                then nets[k].queue[j].(timeout := 2) else nets[k].queue[j]
  {
    EveryNetRunKeepsInv(nets, events, k);
    if events[k].LeaveIn? {
      var r := Leave(events[k].gda, events[k].vid, events[k].port, IGMP_LEAVE_TIMEOUT);
      InsertedMeans(nets[k].queue, r, Known(nets[k].groups, r));
      if Inserted(nets[k].queue, r, Known(nets[k].groups, r)).0 {
        InsertedTimeout(nets[k].queue, r, Known(nets[k].groups, r), t);
      }
    }
  }

  // ---------- every group is served ----------

  /** No report is for a group whose low 23 address bits, those of its MAC address, are all zero. */
  ghost predicate NoZeroGroups(events: seq<Event>, k: nat)
    requires k <= |events|
  {
    forall i :: 0 <= i < k && events[i].ReportIn? && !events[i].isLocal ==> Low23(events[i].gda) != 0
  }

  lemma NextNetServes(n: Net, e: Event)
    requires NetInv(n) && Served(n.groups) && LegalEvent(e)
    requires e.ReportIn? && !e.isLocal ==> Low23(e.gda) != 0
    ensures Served(NextNet(n, e).groups)
  {
    match e
    case ReportIn(vid, gda, port, _, isLocal, room) =>
      if !isLocal {
        UpdateServesExactly(n.groups, vid, gda, {port}, room);
        if NewSlot(n.groups.db, 0) < |n.groups.db| {
          NonZeroPalsAreGroups(n.groups, NewSlot(n.groups.db, 0), vid, gda);
        }
      }
    case SecondOver(ages) =>
      NoDoublesIsQueued(n.queue);
      TickKeepsInv(n.groups, n.queue, 0, false);
      TickKeepsServed(n.groups, n.queue, 0, false);
      AgeFromKeepsServed(Tick(n.groups, n.queue, 0, false).snoop, 0);
    case _ =>
  }

  /** In every such run each group has its layer-2 entry, and each entry exactly one pioneer. */
  lemma {:induction false} EveryNetRunServes(nets: seq<Net>, events: seq<Event>, k: nat)
    requires IsNetRun(nets, events) && k < |nets| && NoZeroGroups(events, k)
    ensures Served(nets[k].groups)
  {
    if k > 0 {
      EveryNetRunServes(nets, events, k - 1);
      EveryNetRunKeepsInv(nets, events, k - 1);
      NextNetServes(nets[k - 1], events[k - 1]);
    } else {
      assert !IsValid(0);
    }
  }

  /** So in every such run the law of the ageing needs no more than that entry and groups agree before it. */
  lemma EveryAgeingOfARun(nets: seq<Net>, events: seq<Event>, k: nat, key: L2Key, p: int)
    requires IsNetRun(nets, events) && k < |events| && events[k] == SecondOver(true) && NoZeroGroups(events, k)
    ensures
      var t := Tick(nets[k].groups, nets[k].queue, 0, false).snoop;
      !Scanned(t, key.vid, p) && Agrees(t, key, p) ==>
        (Agrees(nets[k + 1].groups, key, p) <==>
         Actives(t, key, p) == {} || Actives(t, key, p) - Stranded(t, key) != {})
  {
    EveryNetRunKeepsInv(nets, events, k);
    EveryNetRunServes(nets, events, k);
    NoDoublesIsQueued(nets[k].queue);
    TickKeepsInv(nets[k].groups, nets[k].queue, 0, false);
    TickKeepsServed(nets[k].groups, nets[k].queue, 0, false);
    var t := Tick(nets[k].groups, nets[k].queue, 0, false).snoop;
    if !Scanned(t, key.vid, p) && Agrees(t, key, p) {
      AgeKeepsL2Exactly(t, key, p);
    }
  }

  /** So a report of a known group never makes entry and groups disagree. */
  lemma KnownReportKeepsL2(nets: seq<Net>, events: seq<Event>, k: nat, key: L2Key, p: int)
    requires IsNetRun(nets, events) && k < |events| && NoZeroGroups(events, k) && events[k].ReportIn?
    requires Find(nets[k].groups.db, events[k].vid, events[k].gda, 0) < |nets[k].groups.db|
    requires !RouterPort(nets[k].groups, key.vid, p) && Agrees(nets[k].groups, key, p)
    ensures Agrees(nets[k + 1].groups, key, p)
  {
    EveryNetRunKeepsInv(nets, events, k);
    EveryNetRunServes(nets, events, k);
    if !events[k].isLocal {
      EveryReportOfARun(nets, events, k, key, p);
      ServedIsReached(nets[k].groups, events[k].vid, events[k].gda);
    }
  }

  // ---------- runs in which the promise fails ----------

  /** Some run leads here. */
  ghost predicate Reachable(n: Net) {
    exists nets, events :: IsNetRun(nets, events) && nets[|events|] == n
  }

  lemma EventReachable(n: Net, e: Event) returns (m: Net)
    requires Reachable(n) && WellFormed(n.groups) && LegalEvent(e)
    ensures m == NextNet(n, e) && Reachable(m)
  {
    var nets, events :| IsNetRun(nets, events) && nets[|events|] == n;
    m := NextNet(n, e);
    var more, all := nets + [m], events + [e];
    forall k | 0 <= k < |all|
      ensures WellFormed(more[k].groups) && LegalEvent(all[k]) && more[k + 1] == NextNet(more[k], all[k])
    {
      assert k < |events| ==> more[k] == nets[k] && more[k + 1] == nets[k + 1] && all[k] == events[k];
    }
    assert IsNetRun(more, all);
  }

  /** Two groups of VLAN 1 with the same MAC address. */
  const FIRST: Word := 0xE100_0001
  const SECOND: Word := 0xE200_0001

  function SharedKey(): L2Key {
    L2Key(1, ComposeMac(FIRST))
  }

  lemma SameMac()
    ensures ComposeMac(SECOND) == ComposeMac(FIRST)
  {
    MacIsLow23(FIRST, SECOND);
  }

  /** Slots 0 and 1 hold these entries, and no other slot is in use. */
  function TwoSlots(e0: DbEntry, e1: DbEntry, l0: PortLists, l1: PortLists, l2: map<L2Key, PortSet>): Snoop {
    Snoop([e0, e1] + seq(NUM_IGMP_GROUPS - 2, _ => DbEntry(0, 0)),
          [l0, l1] + seq(NUM_IGMP_GROUPS - 2, _ => PortLists({}, {})), l2, [], 0)
  }

  /** Both groups are there, the first one as the pioneer. */
  function BothGroups(l0: PortLists, l1: PortLists, entry: PortSet): Snoop {
    TwoSlots(DbEntry(FIRST, 1), DbEntry(Address(SECOND), 1), l0, l1, map[SharedKey() := entry])
  }

  function NoGroups(): Snoop {
    TwoSlots(DbEntry(0, 0), DbEntry(0, 0), PortLists({}, {}), PortLists({}, {}), map[])
  }

  lemma FirstReport(port: int)
    requires port in ALL_PORTS
    ensures Update(NoGroups(), 1, FIRST, {port}, true).0 ==
            TwoSlots(DbEntry(FIRST, 1), DbEntry(0, 0), PortLists({port}, {port}), PortLists({}, {}),
                     map[SharedKey() := {port}])
  {
    var s := NoGroups();
    assert Find(s.db, 1, FIRST, 0) == |s.db|;
    assert NewSlot(s.db, 0) == 0;
    var db := s.db[0 := DbEntry(FIRST, 1)];
    assert AnyPal(db, 0, 0) == |db|;
    assert {port} + RouterPorts(s.routers, 1, 0, 0) * ALL_PORTS == {port};
    var none: set<int> := {};
    assert none + {port} == {port};
    var t := TwoSlots(DbEntry(FIRST, 1), DbEntry(0, 0), PortLists({port}, {port}), PortLists({}, {}),
                      map[SharedKey() := {port}]);
    assert db == t.db && s.lists[0 := PortLists({port}, {port})] == t.lists;
  }

  lemma SecondReport(a: int, b: int)
    requires a in ALL_PORTS && b in ALL_PORTS
    ensures
      var s := TwoSlots(DbEntry(FIRST, 1), DbEntry(0, 0), PortLists({a}, {a}), PortLists({}, {}),
                        map[SharedKey() := {a}]);
      Update(s, 1, SECOND, {b}, true).0 == BothGroups(PortLists({a}, {a}), PortLists({b}, {b}), {b})
  {
    var s := TwoSlots(DbEntry(FIRST, 1), DbEntry(0, 0), PortLists({a}, {a}), PortLists({}, {}),
                      map[SharedKey() := {a}]);
    SameMac();
    assert Find(s.db, 1, SECOND, 0) == |s.db|;
    assert NewSlot(s.db, 0) == 1;
    var db := s.db[1 := DbEntry(SECOND, 1)];
    assert AnyPal(db, 1, 0) == 0;
    assert {b} + RouterPorts(s.routers, 1, 0, 0) * ALL_PORTS == {b};
    var none: set<int> := {};
    assert none + {b} == {b};
    var t := BothGroups(PortLists({a}, {a}), PortLists({b}, {b}), {b});
    assert db[1 := DbEntry(Address(SECOND), 1)] == t.db && s.lists[1 := PortLists({b}, {b})] == t.lists;
    assert s.l2[SharedKey() := {b}] == t.l2;
  }

  /** The first group reports on port a, the second one on port b. */
  lemma BothReport(a: int, b: int) returns (n: Net)
    requires a in ALL_PORTS && b in ALL_PORTS
    ensures Reachable(n) && n == Net(BothGroups(PortLists({a}, {a}), PortLists({b}, {b}), {b}), [])
  {
    n := Net(NoGroups(), []);
    assert IsNetRun([n], []);
    FirstReport(a);
    n := EventReachable(n, ReportIn(1, FIRST, a, true, false, true));
    SecondReport(a, b);
    n := EventReachable(n, ReportIn(1, SECOND, b, true, false, true));
  }

  /** A leave of the first group comes, and a second passes. */
  lemma LeaveAndWait(n: Net, port: int) returns (m: Net)
    requires Reachable(n) && WellFormed(n.groups) && n.queue == [] && port in ALL_PORTS
    requires |n.groups.db| > 0 && n.groups.db[0] == DbEntry(FIRST, 1)
    ensures Reachable(m) && m == Net(n.groups, [Leave(FIRST, 1, port, 1)])
  {
    assert Find(n.groups.db, 1, FIRST, 0) == 0;
    m := EventReachable(n, LeaveIn(1, FIRST, port));
    var r := Leave(FIRST, 1, port, 2);
    assert m.queue == [r];
    assert Tick(n.groups, [r], 1, true) == Ticked(n.groups, []);
    m := EventReachable(m, SecondOver(false));
  }

  /** Who is in the entry of both groups, and what the record of the first one takes. */
  lemma BothGroupsShare(l0: PortLists, l1: PortLists, entry: PortSet, port: int)
    requires l0.age <= l0.uplist && l1.age <= l1.uplist
    ensures
      var s, key := BothGroups(l0, l1, entry), SharedKey();
      var (first, second) := (GroupId(1, Address(FIRST)), GroupId(1, Address(SECOND)));
      first != second && DbInv(s) && !RouterPort(s, 1, port) && (InL2(s, key, port) <==> port in entry) &&
      Holders(s, key, port) ==
        (if port in l0.uplist then {first} else {}) + (if port in l1.uplist then {second} else {}) &&
      Actives(s, key, port) ==
        (if port in l0.age then {first} else {}) + (if port in l1.age then {second} else {})
  {
    var s, key := BothGroups(l0, l1, entry), SharedKey();
    AddressFacts(SECOND);
    MacIsLow23(FIRST, Address(SECOND));
    assert !IsValid(0);
    assert IdOf(s.db[0]) == GroupId(1, Address(FIRST)) && IdOf(s.db[1]) == GroupId(1, Address(SECOND));
    assert L2KeyOf(s.db[0]) == key == L2KeyOf(s.db[1]);
    forall aged, j ensures UsesAt(s, aged, j, key, port) <==>
                           (j == 0 && port in if aged then l0.age else l0.uplist) ||
                           (j == 1 && port in if aged then l1.age else l1.uplist)
    {
    }
    TwoUsers(s, false, key, port);
    TwoUsers(s, true, key, port);
  }

  lemma TwoUsers(s: Snoop, aged: bool, key: L2Key, p: int)
    requires WellFormed(s) && |s.db| >= 2 && forall j :: UsesAt(s, aged, j, key, p) ==> j == 0 || j == 1
    ensures Users(s, aged, key, p) ==
            (if UsesAt(s, aged, 0, key, p) then {IdOf(s.db[0])} else {}) +
            (if UsesAt(s, aged, 1, key, p) then {IdOf(s.db[1])} else {})
  {
  }

  lemma FirstGroupLoses(l0: PortLists, l1: PortLists, entry: PortSet, port: int)
    requires l0.age <= l0.uplist && l1.age <= l1.uplist
    ensures Losing(BothGroups(l0, l1, entry), [Leave(FIRST, 1, port, 1)], SharedKey(), port) ==
            {GroupId(1, Address(FIRST))}
  {
    var s, q, key := BothGroups(l0, l1, entry), [Leave(FIRST, 1, port, 1)], SharedKey();
    assert Find(s.db, 1, FIRST, 0) == 0;
    assert TakenBefore(q, 0, 0) == {};
    assert LeavesAt(s, q, 0, 0, key, port);
  }

  lemma RecordRunsOut(l0: PortLists, l1: PortLists, entry: PortSet, port: int)
    requires l0.age <= l0.uplist && l1.age <= l1.uplist
    requires port in entry && port in l1.uplist && !(port in l0.age && port in l1.age)
    ensures
      var t := Tick(BothGroups(l0, l1, entry), [Leave(FIRST, 1, port, 1)], 0, false).snoop;
      !InL2(t, SharedKey(), port) && GroupId(1, Address(SECOND)) in Holders(t, SharedKey(), port)
  {
    var s, q, key := BothGroups(l0, l1, entry), [Leave(FIRST, 1, port, 1)], SharedKey();
    BothGroupsShare(l0, l1, entry, port);
    FirstGroupLoses(l0, l1, entry, port);
    TickL2(s, q, key, port);
    TickView(s, q, false, key, port);
    var second := GroupId(1, Address(SECOND));
    assert second in Holders(s, key, port) - {GroupId(1, Address(FIRST))};
    assert !KeptFor(Actives(s, key, port), {GroupId(1, Address(FIRST))}) by {
      if port in l0.age {
        assert Actives(s, key, port) - {GroupId(1, Address(FIRST))} == {};
      }
    }
  }

  /**
   A port that never joined the first group leaves it, and the port of the second one goes:
   entry and groups agreed on port 1 before, and all age bits were set.
   */
  lemma UnjoinedLeaveLosesPort() returns (n: Net)
    requires 2 in ALL_PORTS
    ensures Reachable(n) && WellFormed(n.groups) && Agrees(n.groups, SharedKey(), 1)
    ensures Actives(n.groups, SharedKey(), 1) == Holders(n.groups, SharedKey(), 1) != {}
    ensures Reachable(NextNet(n, SecondOver(false))) && !Agrees(NextNet(n, SecondOver(false)).groups, SharedKey(), 1)
  {
    n := BothReport(2, 1);
    n := LeaveAndWait(n, 1);
    var l0, l1 := PortLists({2}, {2}), PortLists({1}, {1});
    BothGroupsShare(l0, l1, {1}, 1);
    RecordRunsOut(l0, l1, {1}, 1);
    var m := EventReachable(n, SecondOver(false));
  }

  /** The second group's first report drops the port of the first one from the entry. */
  lemma SecondReportLosesPort() returns (n: Net)
    requires 2 in ALL_PORTS
    ensures Reachable(n) && !InL2(n.groups, SharedKey(), 2)
    ensures GroupId(1, Address(FIRST)) in Holders(n.groups, SharedKey(), 2)
  {
    n := BothReport(2, 1);
    BothGroupsShare(PortLists({2}, {2}), PortLists({1}, {1}), {1}, 2);
  }

  lemma AgeFirst(a: int)
    requires a in ALL_PORTS
    ensures AgeSlot(BothGroups(PortLists({a}, {a}), PortLists({a}, {a}), {a}), 0) ==
            BothGroups(PortLists({}, {a}), PortLists({a}, {a}), {a})
  {
    var s := BothGroups(PortLists({a}, {a}), PortLists({a}, {a}), {a});
    var entry: PortSet := {a};
    AgedPartCounts(s, 0, |s.db|, 0);
    assert a in AgedPart(s, 0, 0);
    assert entry * AgeSummary(s, 0, |s.db|) == entry;
    var t := BothGroups(PortLists({}, {a}), PortLists({a}, {a}), {a});
    assert s.l2[SharedKey() := entry] == t.l2 && s.lists[0 := PortLists({}, {a})] == t.lists;
  }

  lemma AgeBoth(a: int)
    requires a in ALL_PORTS
    ensures AgeFrom(BothGroups(PortLists({a}, {a}), PortLists({a}, {a}), {a}), 0) ==
            BothGroups(PortLists({}, {a}), PortLists({}, {a}), {a})
  {
    var s := BothGroups(PortLists({}, {a}), PortLists({a}, {a}), {a});
    var t := BothGroups(PortLists({}, {a}), PortLists({}, {a}), {a});
    AgeFirst(a);
    AddressFacts(SECOND);
    assert AgeSlot(s, 1) == t by {
      assert s.lists[1 := PortLists({}, {a})] == t.lists;
    }
    assert !IsValid(0);
    NothingToAge(t, 2);
    assert AgeFrom(s, 1) == AgeFrom(t, 2);
  }

  lemma FirstReportsAgain(a: int)
    requires a in ALL_PORTS
    ensures Update(BothGroups(PortLists({}, {a}), PortLists({}, {a}), {a}), 1, FIRST, {a}, true).0 ==
            BothGroups(PortLists({a}, {a}), PortLists({}, {a}), {a})
  {
    var s := BothGroups(PortLists({}, {a}), PortLists({}, {a}), {a});
    var t := BothGroups(PortLists({a}, {a}), PortLists({}, {a}), {a});
    assert Find(s.db, 1, FIRST, 0) == 0;
    var none: set<int> := {};
    assert none + {a} == {a} && {a} + {a} == {a};
    assert s.lists[0 := PortLists({a}, {a})] == t.lists && s.l2[SharedKey() := {a}] == t.l2;
  }

  /**
   Both groups use port 1, the ageing clears the age bits, only the first one reports again,
   and leaves: the port goes although the second group still lists it.
   */
  lemma StaleAgeLosesPort() returns (n: Net)
    requires 1 in ALL_PORTS
    ensures Reachable(n) && WellFormed(n.groups) && Agrees(n.groups, SharedKey(), 1)
    ensures Losing(n.groups, n.queue, SharedKey(), 1) <= Holders(n.groups, SharedKey(), 1)
    ensures Reachable(NextNet(n, SecondOver(false))) && !Agrees(NextNet(n, SecondOver(false)).groups, SharedKey(), 1)
  {
    n := BothReport(1, 1);
    AgeBoth(1);
    n := EventReachable(n, SecondOver(true));
    FirstReportsAgain(1);
    n := EventReachable(n, ReportIn(1, FIRST, 1, true, false, true));
    assert n == Net(BothGroups(PortLists({1}, {1}), PortLists({}, {1}), {1}), []);
    n := LeaveAndWait(n, 1);
    var l0, l1 := PortLists({1}, {1}), PortLists({}, {1});
    BothGroupsShare(l0, l1, {1}, 1);
    FirstGroupLoses(l0, l1, {1}, 1);
    RecordRunsOut(l0, l1, {1}, 1);
    var m := EventReachable(n, SecondOver(false));
  }

  /** Another ageing: the second group takes over from the first one, with an empty list. */
  lemma AgeTwice(a: int)
    requires a in ALL_PORTS
    ensures AgeFrom(BothGroups(PortLists({}, {a}), PortLists({}, {a}), {a}), 0) ==
            TwoSlots(DbEntry(SECOND, 1), DbEntry(0, 1), PortLists({}, {}), PortLists({}, {}), map[SharedKey() := {}])
  {
    var s := BothGroups(PortLists({}, {a}), PortLists({}, {a}), {a});
    var t := TwoSlots(DbEntry(SECOND, 1), DbEntry(0, 1), PortLists({}, {}), PortLists({}, {}), map[SharedKey() := {}]);
    NothingAged(s, 0, |s.db|);
    AddressFacts(SECOND);
    MacIsLow23(FIRST, Address(SECOND));
    assert FirstPal(s.db, 0, 0) == 1;
    assert AgeSlot(s, 0) == t by {
      assert s.db[0 := DbEntry(SECOND, 1)][1 := DbEntry(0, 1)] == t.db;
      assert s.lists[0 := s.lists[1]][1 := PortLists({}, {})][0 := PortLists({}, {})] == t.lists;
      var (entry: PortSet, none: set<int>) := ({a}, {});
      assert entry * none == none;
    }
    assert !IsValid(0);
    NothingToAge(t, 1);
  }

  /** A third one: the group is gone, and its two slots keep the VLAN id. */
  lemma AgeThrice()
    ensures AgeFrom(TwoSlots(DbEntry(SECOND, 1), DbEntry(0, 1), PortLists({}, {}), PortLists({}, {}),
                             map[SharedKey() := {}]), 0) ==
            TwoSlots(DbEntry(0, 1), DbEntry(0, 1), PortLists({}, {}), PortLists({}, {}), map[])
  {
    var s := TwoSlots(DbEntry(SECOND, 1), DbEntry(0, 1), PortLists({}, {}), PortLists({}, {}), map[SharedKey() := {}]);
    var t := TwoSlots(DbEntry(0, 1), DbEntry(0, 1), PortLists({}, {}), PortLists({}, {}), map[]);
    SameMac();
    assert !IsValid(0);
    assert FirstPal(s.db, 0, 0) == |s.db|;
    assert AgeSlot(s, 0) == t by {
      assert s.db[0 := DbEntry(0, 1)] == t.db && s.lists[0 := PortLists({}, {})] == t.lists;
    }
    NothingToAge(t, 1);
  }

  /** A group with low address bits zero. */
  const ZERO: Word := 0xE080_0000

  /** After its first report the group is a follower, although there is no other. */
  lemma ZeroReports(a: int)
    requires a in ALL_PORTS
    ensures
      var s := TwoSlots(DbEntry(0, 1), DbEntry(0, 1), PortLists({}, {}), PortLists({}, {}), map[]);
      Update(s, 1, ZERO, {a}, true).0 ==
      TwoSlots(DbEntry(Address(ZERO), 1), DbEntry(0, 1), PortLists({a}, {a}), PortLists({}, {}),
               map[L2Key(1, ComposeMac(ZERO)) := {a}])
  {
    var s := TwoSlots(DbEntry(0, 1), DbEntry(0, 1), PortLists({}, {}), PortLists({}, {}), map[]);
    assert !IsValid(0);
    assert Find(s.db, 1, ZERO, 0) == |s.db| && NewSlot(s.db, 0) == 0;
    var db := s.db[0 := DbEntry(ZERO, 1)];
    assert PalSlots(db, 0, 1);
    assert {a} + RouterPorts(s.routers, 1, 0, 0) * ALL_PORTS == {a};
    var none: set<int> := {};
    assert none + {a} == {a};
    var t := TwoSlots(DbEntry(Address(ZERO), 1), DbEntry(0, 1), PortLists({a}, {a}), PortLists({}, {}),
                      map[L2Key(1, ComposeMac(ZERO)) := {a}]);
    assert db[0 := DbEntry(Address(ZERO), 1)] == t.db && s.lists[0 := PortLists({a}, {a})] == t.lists;
  }

  /** Its next report reaches no entry. */
  lemma ZeroReportsAgain(a: int, b: int)
    requires a in ALL_PORTS && b in ALL_PORTS && a != b
    ensures
      var key := L2Key(1, ComposeMac(ZERO));
      var t := TwoSlots(DbEntry(Address(ZERO), 1), DbEntry(0, 1), PortLists({a}, {a}), PortLists({}, {}),
                        map[key := {a}]);
      var u := Update(t, 1, ZERO, {b}, true).0;
      !InL2(u, key, b) && GroupId(1, Address(ZERO)) in Holders(u, key, b)
  {
    var key := L2Key(1, ComposeMac(ZERO));
    var t := TwoSlots(DbEntry(Address(ZERO), 1), DbEntry(0, 1), PortLists({a}, {a}), PortLists({}, {}),
                      map[key := {a}]);
    AddressFacts(ZERO);
    MacIsLow23(ZERO, Address(ZERO));
    assert Find(t.db, 1, ZERO, 0) == 0;
    assert PioneerPalOf(t.db, 0, 0) == |t.db|;
    var u := Update(t, 1, ZERO, {b}, true).0;
    assert u.l2 == t.l2;
    assert UsesAt(u, false, 0, key, b);
  }

  /** Such a group takes an unused slot of its VLAN for a pal, follows nobody, and its entry misses ports. */
  lemma ZeroGroupLosesPort() returns (n: Net)
    requires 2 in ALL_PORTS
    ensures Reachable(n) && !InL2(n.groups, L2Key(1, ComposeMac(ZERO)), 2)
    ensures GroupId(1, Address(ZERO)) in Holders(n.groups, L2Key(1, ComposeMac(ZERO)), 2)
  {
    n := BothReport(1, 1);
    AgeBoth(1);
    n := EventReachable(n, SecondOver(true));
    AgeTwice(1);
    n := EventReachable(n, SecondOver(true));
    AgeThrice();
    n := EventReachable(n, SecondOver(true));
    ZeroReports(1);
    n := EventReachable(n, ReportIn(1, ZERO, 1, true, false, true));
    ZeroReportsAgain(1, 2);
    n := EventReachable(n, ReportIn(1, ZERO, 2, true, false, true));
  }
}
