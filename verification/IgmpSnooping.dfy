/**
 The leave-queue tick as appl/igmpsnoop runs it: the group tables are fixed arrays, and
 the leave queue is linked by slot number through an array it shares with its free pool.
 */
module IgmpSnooping {
  import opened Sequences
  import opened Uplists
  import opened Words
  import opened IgmpGroups
  import opened IgmpLeaves
  import opened IgmpReports
  import opened SlotLists

  /** The ports left after those below u and outside the summary are gone. */
  function Trimmed(exist: PortSet, summary: set<int>, u: int): PortSet {
    set p | p in exist && (p in summary || p >= u)
  }

  /** The ports below u. */
  function Below(ports: PortSet, u: int): PortSet {
    set p | p in ports && p < u
  }

  lemma BelowOnce(ports: PortSet, u: int)
    ensures Below(ports, u + 1) == if u in ports then Below(ports, u) + {u} else Below(ports, u)
    ensures Below(ports, 1) == {}
  {
  }

  /** Lists with the ports below u added. */
  function WithBelow(l: PortLists, ports: PortSet, u: int): PortLists {
    PortLists(l.age + Below(ports, u), l.uplist + Below(ports, u))
  }

  lemma WithBelowStarts(l: PortLists, ports: PortSet)
    ensures WithBelow(l, ports, 1) == l
  {
    assert l.age + Below(ports, 1) == l.age && l.uplist + Below(ports, 1) == l.uplist;
  }

  lemma WithBelowOnce(l: PortLists, ports: PortSet, u: int)
    ensures WithBelow(l, ports, u + 1) ==
            var w := WithBelow(l, ports, u);
            if u in ports then PortLists(w.age + {u}, w.uplist + {u}) else w
  {
    BelowOnce(ports, u);
    assert u in ports ==>
        l.age + Below(ports, u) + {u} == l.age + Below(ports, u + 1) &&
        l.uplist + Below(ports, u) + {u} == l.uplist + Below(ports, u + 1);
  }

  lemma TrimmedOnce(exist: PortSet, summary: set<int>, u: int)
    ensures Trimmed(exist, summary, u + 1)
         == if u in exist && u !in summary then Trimmed(exist, summary, u) - {u} else Trimmed(exist, summary, u)
  {
  }

  /** Slot j is a valid pal of slot i and carries the pioneer bit. */
  predicate PioneerPal(db: seq<DbEntry>, i: int, j: int) {
    ValidPal(db, i, j) && IsPioneer(db[j].gda)
  }

  /** igmpDB, IPMCuplist and dynamic_router, beside the switch's multicast table. */
  class GroupTable {
    const db: array<DbEntry>
    const lists: array<PortLists>
    var l2: map<L2Key, PortSet>
    var routers: seq<Router>
    var vlanCount: nat

    ghost predicate Valid()
      reads this, db, lists
    {
      db.Length == NUM_IGMP_GROUPS && lists.Length == NUM_IGMP_GROUPS && DbInv(Abs())
    }

    ghost function Abs(): Snoop
      reads this, db, lists
    {
      Snoop(db[..], lists[..], l2, routers, vlanCount)
    }

    /** The tables as they start, for any multicast table and router ports. */
    constructor (l2: map<L2Key, PortSet>, routers: seq<Router>, vlanCount: nat)
      requires vlanCount <= |routers|
      ensures Valid() && fresh(db) && fresh(lists)
      ensures Abs() == Snoop(seq(NUM_IGMP_GROUPS, _ => DbEntry(0, 0)),
                             seq(NUM_IGMP_GROUPS, _ => PortLists({}, {})), l2, routers, vlanCount)
    {
      this.l2, this.routers, this.vlanCount := l2, routers, vlanCount;
      db := new DbEntry[NUM_IGMP_GROUPS](_ => DbEntry(0, 0));
      lists := new PortLists[NUM_IGMP_GROUPS](_ => PortLists({}, {}));
      new;
      assert !IsValid(0);
      assert db[..] == seq(NUM_IGMP_GROUPS, _ => DbEntry(0, 0));
      assert lists[..] == seq(NUM_IGMP_GROUPS, _ => PortLists({}, {}));
    }

    /** The group and router part of igmpsnoop_database_init. */
    method DatabaseInit()
      requires Valid()
      modifies this`l2, this`routers, db, lists
      ensures Valid() && Abs() == Cleared(old(Abs()))
    {
      ghost var s := Abs();
      ClearedKeeps(s, L2Key(0, []), 0);
      RemovePioneers();
      ClearGroups();
      ClearRouters();
      assert Abs() == Cleared(s);
    }

    /** Every pioneer's entry leaves the multicast table. */
    method RemovePioneers()
      requires Valid()
      modifies this`l2
      ensures l2 == old(l2) - PioneerKeys(db[..], NUM_IGMP_GROUPS)
    {
      for i := 0 to NUM_IGMP_GROUPS
        invariant l2 == old(l2) - PioneerKeys(db[..], i)
      {
        if IsPioneer(db[i].gda) {
          l2 := l2 - {L2Key(db[i].vid % VID_LIMIT, ComposeMac(db[i].gda))};
        }
      }
    }

    method ClearGroups()
      requires db.Length == NUM_IGMP_GROUPS && lists.Length == NUM_IGMP_GROUPS
      modifies db, lists
      ensures db[..] == seq(NUM_IGMP_GROUPS, _ => DbEntry(0, 0))
      ensures lists[..] == seq(NUM_IGMP_GROUPS, _ => PortLists({}, {}))
    {
      for i := 0 to NUM_IGMP_GROUPS
        invariant forall j :: 0 <= j < i ==> db[j] == DbEntry(0, 0) && lists[j] == PortLists({}, {})
      {
        db[i] := DbEntry(0, 0);
        lists[i] := PortLists({}, {});
      }
    }

    method ClearRouters()
      modifies this`routers
      ensures |routers| == |old(routers)|
      ensures forall j :: 0 <= j < |routers| ==> routers[j] == ClearedRouter(old(routers)[j])
    {
      for i := 0 to |routers|
        invariant |routers| == |old(routers)|
        invariant forall j :: 0 <= j < |routers| ==>
          routers[j] == if j < i then ClearedRouter(old(routers)[j]) else old(routers)[j]
      {
        if routers[i].vid != 0 {
          routers := routers[i := Router(0, {})];
        }
      }
    }

    /** igmpDB_search */
    method Search(vid: nat, gda: Word) returns (i: nat)
      ensures i == Find(db[..], vid, gda, 0)
    {
      i := 0;
      while i < db.Length
        invariant i <= db.Length && Find(db[..], vid, gda, 0) == Find(db[..], vid, gda, i)
      {
        if Names(db[i], vid, gda) {
          return;
        }
        i := i + 1;
      }
    }

    /** The scan of igmpsnoop_one_sec over the other groups: pals still active on the port, and the pioneer. */
    method ScanPals(i: nat, u: int) returns (pal: nat, pioneer: nat)
      requires Valid() && i < NUM_IGMP_GROUPS
      ensures pal > 0 <==> ActivePal(Abs(), i, u)
      ensures pioneer == i || PioneerPal(db[..], i, pioneer)
      ensures forall h :: (pioneer == i || h > pioneer) ==> !PioneerPal(db[..], i, h)
    {
      pal, pioneer := 0, i;
      for j := 0 to NUM_IGMP_GROUPS
        invariant pal > 0 <==> exists h :: 0 <= h < j && ActivePalAt(Abs(), i, h, u)
        invariant pioneer == i || (pioneer < j && PioneerPal(db[..], i, pioneer))
        invariant forall h :: h < j && (pioneer == i || h > pioneer) ==> !PioneerPal(db[..], i, h)
      {
        if j != i && IsValid(db[j].gda) {
          if Pals(db[i], db[j]) {
            if IsPioneer(db[j].gda) {
              pioneer := j;
            }
            if u in lists[i].age && u in lists[j].age {
              pal := pal + 1;
              assert ActivePalAt(Abs(), i, j, u);
            }
          }
        }
      }
    }

    /** The scan for a VLAN's dynamic router ports among the first n records. */
    method FindRouterPorts(vid: nat, n: nat) returns (ports: set<int>)
      requires n <= |routers|
      ensures ports == RouterPorts(routers, vid, 0, n)
    {
      ports := {};
      for i := 0 to n
        invariant ports == {} && RouterPorts(routers, vid, 0, n) == RouterPorts(routers, vid, i, n)
      {
        if routers[i].vid == vid {
          return routers[i].uplist;
        }
      }
    }

    /** L2MCportbmp_remove */
    method L2PortRemove(index: nat, u: int)
      requires Valid() && index < NUM_IGMP_GROUPS
      modifies this`l2
      ensures Valid() && Abs() == DropFromL2(old(Abs()), index, u)
    {
      var k := L2KeyOf(db[index]);
      var routerPorts := FindRouterPorts(db[index].vid, |routers|);
      if u !in routerPorts && k in l2 {
        l2 := l2[k := l2[k] - {u}];
      }
    }

    /** IPMCuplist_remove */
    method ListPortRemove(i: nat, u: int)
      requires Valid() && i < NUM_IGMP_GROUPS
      modifies lists
      ensures Valid() && Abs() == DropFromLists(old(Abs()), i, u)
    {
      ghost var before := lists[..];
      lists[i] := PortLists(lists[i].age - {u}, lists[i].uplist - {u});
      assert lists[..] == before[i := lists[i]];
    }

    /** The part of the tick that takes the port from the shared entry and from the group. */
    method Strike(i: nat, u: int)
      requires Valid() && i < NUM_IGMP_GROUPS
      modifies this`l2, lists
      ensures Valid() && Abs() == StrikePort(old(Abs()), i, u)
    {
      var pal, pioneer := ScanPals(i, u);
      if pal == 0 {
        PalsShareKey(db[i], db[pioneer]);
        L2PortRemove(pioneer, u);
      }
      ListPortRemove(i, u);
    }

    /** What the tick does with a record that has run out and whose group is known. */
    method ExpirePort(i: nat, u: int)
      requires Valid() && i < NUM_IGMP_GROUPS
      modifies this`l2, db, lists
      ensures Valid() && Abs() == Expire(old(Abs()), i, u)
    {
      Strike(i, u);
      if lists[i].uplist == {} {
        EntryRemove(i);
      }
    }

    /** The scan of igmpsnoop_IPMCentry_remove: the pals' ports, and the first pal. */
    method Summarize(e: nat) returns (summary: set<int>, pal: nat)
      requires Valid() && e < NUM_IGMP_GROUPS
      ensures summary == Summary(Abs(), e, NUM_IGMP_GROUPS) && pal == FirstPal(db[..], e, 0)
    {
      summary, pal := {}, NUM_IGMP_GROUPS;
      for j := 0 to NUM_IGMP_GROUPS
        invariant summary == Summary(Abs(), e, j)
        invariant pal < j ==> pal == FirstPal(db[..], e, 0)
        invariant pal >= j ==> pal == NUM_IGMP_GROUPS && FirstPal(db[..], e, 0) == FirstPal(db[..], e, j)
      {
        if Pals(db[e], db[j]) && e != j && IsValid(db[j].gda) {
          var routerPorts := FindRouterPorts(db[j].vid, vlanCount);
          summary := summary + (lists[j].uplist + routerPorts);
          if pal == NUM_IGMP_GROUPS {
            pal := j;
          }
        }
      }
    }

    /** L2MCportbmp_update with L2MCportbmp_CAST: port by port, those outside the summary leave. */
    method L2Cast(e: nat, summary: set<int>)
      requires Valid() && e < NUM_IGMP_GROUPS
      modifies this`l2
      ensures Valid() && Abs() == Cast(old(Abs()), e, summary)
    {
      var k := L2KeyOf(db[e]);
      if k !in l2 {
        return;
      }
      var exist := l2[k];
      assert Trimmed(exist, summary, 1) == exist;
      for u := 1 to UPORT_COUNT + 1
        invariant l2 == old(l2)[k := Trimmed(exist, summary, u)]
      {
        TrimmedOnce(exist, summary, u);
        if u in exist {
          if u !in summary {
            l2 := l2[k := l2[k] - {u}];
          }
        }
      }
      assert Trimmed(exist, summary, UPORT_COUNT + 1) == exist * summary;
    }

    /** No group is left on the entry: delete it, if this slot is its pioneer, and free the slot. */
    method EraseEntry(e: nat)
      requires Valid() && e < NUM_IGMP_GROUPS
      modifies this`l2, db, lists
      ensures Valid() && Abs() == Erase(old(Abs()), e)
    {
      EraseKeepsInv(Abs(), e);
      ghost var wasDb, wasLists := db[..], lists[..];
      if IsPioneer(db[e].gda) {
        l2 := l2 - {L2Key(db[e].vid % VID_LIMIT, ComposeMac(db[e].gda))};
      }
      db[e] := db[e].(gda := 0);
      lists[e] := PortLists({}, {});
      assert db[..] == wasDb[e := db[e]] && lists[..] == wasLists[e := lists[e]];
    }

    /** A pal takes over the pioneer's slot. */
    method MovePal(e: nat, pal: nat)
      requires Valid() && e < NUM_IGMP_GROUPS && ValidPal(db[..], e, pal)
      modifies db, lists
      ensures Valid() && Abs() == TakeOver(old(Abs()), e, pal)
    {
      TakeOverKeepsInv(Abs(), e, pal);
      ghost var wasDb, wasLists := db[..], lists[..];
      db[e] := db[pal];
      lists[e] := lists[pal];
      db[e] := db[e].(gda := ValidPioneer(db[e].gda));
      db[pal] := db[pal].(gda := 0);
      lists[pal] := PortLists({}, {});
      assert db[..] == wasDb[e := db[e]][pal := db[pal]];
      assert lists[..] == wasLists[e := lists[e]][pal := lists[pal]];
    }

    /** igmpsnoop_IPMCentry_remove */
    method EntryRemove(e: nat)
      requires Valid() && e < NUM_IGMP_GROUPS
      modifies this`l2, db, lists
      ensures Valid() && Abs() == RemoveEntry(old(Abs()), e)
    {
      var pal := NUM_IGMP_GROUPS;
      if IsValid(db[e].gda) && IsPioneer(db[e].gda) {
        var summary;
        summary, pal := Summarize(e);
        L2Cast(e, summary);
      }
      if pal == NUM_IGMP_GROUPS {
        EraseEntry(e);
      } else {
        MovePal(e, pal);
      }
    }

    // ---------- reports ----------

    /** igmpDB_new */
    method DbNew() returns (i: nat)
      ensures i == NewSlot(db[..], 0)
    {
      i := 0;
      while i < db.Length
        invariant i <= db.Length && NewSlot(db[..], 0) == NewSlot(db[..], i)
      {
        if !IsValid(db[i].gda) {
          return;
        }
        i := i + 1;
      }
    }

    /** The loop over are_pals that tells a pioneer from a follower. */
    method FindPal(i: nat) returns (j: nat)
      requires i < db.Length
      ensures j == AnyPal(db[..], i, 0)
    {
      j := 0;
      while j < db.Length
        invariant j <= db.Length && AnyPal(db[..], i, 0) == AnyPal(db[..], i, j)
      {
        if Pals(db[i], db[j]) && i != j {
          return;
        }
        j := j + 1;
      }
    }

    /** The loop that finds a follower's pioneer. */
    method FindPioneer(i: nat) returns (j: nat)
      requires i < db.Length
      ensures j == PioneerPalOf(db[..], i, 0)
    {
      j := 0;
      while j < db.Length
        invariant j <= db.Length && PioneerPalOf(db[..], i, 0) == PioneerPalOf(db[..], i, j)
      {
        if Pals(db[i], db[j]) && i != j && IsPioneer(db[j].gda) {
          return;
        }
        j := j + 1;
      }
    }

    /** L2MCportbmp_update with L2MCportbmp_ADD, port by port. */
    method L2Add(j: nat, ports: PortSet)
      requires Valid() && j < NUM_IGMP_GROUPS
      modifies this`l2
      ensures Valid() && Abs() == AddToEntry(old(Abs()), j, ports)
    {
      var k := L2KeyOf(db[j]);
      if k !in l2 {
        return;
      }
      var exist := l2[k];
      assert exist + Below(ports, 1) == exist;
      for u := 1 to UPORT_COUNT + 1
        invariant l2 == old(l2)[k := exist + Below(ports, u)]
      {
        BelowOnce(ports, u);
        if u in ports {
          l2 := l2[k := l2[k] + {u}];
          assert exist + Below(ports, u) + {u} == exist + Below(ports, u + 1);
        }
      }
      assert Below(ports, UPORT_COUNT + 1) == ports;
    }

    /** IPMCuplist_add */
    method ListAdd(i: nat, ports: PortSet)
      requires Valid() && i < NUM_IGMP_GROUPS
      modifies lists
      ensures Valid() && Abs() == AddToLists(old(Abs()), i, ports)
    {
      AddToListsKeepsInv(Abs(), i, ports);
      ghost var was := lists[..];
      WithBelowStarts(was[i], ports);
      for u := 1 to UPORT_COUNT + 1
        invariant lists[..] == was[i := WithBelow(was[i], ports, u)]
      {
        WithBelowOnce(was[i], ports, u);
        if u in ports {
          ListPortAdd(i, u);
        }
      }
      assert Below(ports, UPORT_COUNT + 1) == ports;
    }

    method ListPortAdd(i: nat, u: int)
      requires i < lists.Length
      modifies lists
      ensures lists[..] == old(lists[..])[i := PortLists(old(lists[i]).age + {u}, old(lists[i]).uplist + {u})]
    {
      lists[i] := lists[i].(age := lists[i].age + {u});
      lists[i] := lists[i].(uplist := lists[i].uplist + {u});
    }

    /** A new group in a slot that is not in use. */
    method EnterGroup(i: nat, vid: nat, gda: Word, ports: PortSet)
      requires Valid() && i < NUM_IGMP_GROUPS && Reportable(vid, gda)
      requires Find(db[..], vid, gda, 0) == NUM_IGMP_GROUPS
      modifies this`l2, db
      ensures Valid() && Abs() == Enter(old(Abs()), i, vid, gda, ports)
    {
      EnterKeepsInv(Abs(), i, vid, gda, ports);
      ghost var after, was := Enter(Abs(), i, vid, gda, ports), db[..];
      var routerPorts := FindRouterPorts(vid, vlanCount);
      l2 := l2[L2Key(vid, ComposeMac(gda)) := ports + routerPorts * ALL_PORTS];
      db[i] := DbEntry(gda, vid);
      assert db[..] == was[i := DbEntry(gda, vid)];
      var j := FindPal(i);
      if j < NUM_IGMP_GROUPS {
        db[i] := db[i].(gda := Address(db[i].gda));
        assert db[..] == was[i := DbEntry(gda, vid)][i := DbEntry(Address(gda), vid)];
      }
      assert Abs() == after;
    }

    /** The multicast table has no room for a new group. */
    method Refuse(i: nat)
      requires Valid() && i < NUM_IGMP_GROUPS
      modifies db
      ensures Valid() && Abs() == old(Abs()).(db := old(db[..])[i := old(db[i]).(gda := 0)])
    {
      ghost var was := db[..];
      assert !IsValid(0);
      db[i] := db[i].(gda := 0);
      assert db[..] == was[i := db[i]];
    }

    /** A report of a group that is in the database. */
    method Renew(i: nat, ports: PortSet)
      requires Valid() && i < NUM_IGMP_GROUPS
      modifies this`l2, lists
      ensures Valid() && Abs() == Rejoin(old(Abs()), i, ports)
    {
      var j := i;
      if !IsPioneer(db[i].gda) {
        j := FindPioneer(i);
      }
      if j < NUM_IGMP_GROUPS {
        L2Add(j, ports);
      }
      ListAdd(i, ports);
    }

    /** igmpDB_update; room is the answer of the multicast table to a new entry. */
    method DbUpdate(vid: nat, gda: Word, ports: PortSet, room: bool) returns (ok: bool)
      requires Valid() && Reportable(vid, gda)
      modifies this`l2, db, lists
      ensures Valid() && (Abs(), ok) == Update(old(Abs()), vid, gda, ports, room)
    {
      var i := Search(vid, gda);
      if i < NUM_IGMP_GROUPS {
        Renew(i, ports);
        return true;
      }
      i := DbNew();
      if i >= NUM_IGMP_GROUPS {
        return false;
      }
      if !room {
        Refuse(i);
        return false;
      }
      EnterGroup(i, vid, gda, ports);
      ListAdd(i, ports);
      return true;
    }

    // ---------- ageing ----------

    /** The scan has come to slot j; pal is the first pal before it, if there is one. */
    ghost predicate FirstSoFar(i: nat, j: nat, pal: nat)
      requires i < db.Length == NUM_IGMP_GROUPS && j <= NUM_IGMP_GROUPS
      reads this, db
    {
      if pal < j then pal == FirstPal(db[..], i, 0)
      else pal == NUM_IGMP_GROUPS && FirstPal(db[..], i, 0) == FirstPal(db[..], i, j)
    }

    /** One round of the loops over a pioneer's pals: slot j counts if it is one of them. */
    method AddAged(i: nat, j: nat, ports: set<int>, summary: set<int>, pal: nat) returns (sum: set<int>, first: nat)
      requires Valid() && i < NUM_IGMP_GROUPS && j < NUM_IGMP_GROUPS && j != i
      requires ports == if j < i then lists[j].uplist else lists[j].age
      requires summary == AgeSummary(Abs(), i, j) && FirstSoFar(i, j, pal)
      ensures sum == AgeSummary(Abs(), i, j + 1) && FirstSoFar(i, j + 1, first)
    {
      sum, first := summary, pal;
      if Pals(db[i], db[j]) && IsValid(db[j].gda) {
        var routerPorts := FindRouterPorts(db[j].vid, vlanCount);
        sum := sum + (ports + routerPorts);
        if pal == NUM_IGMP_GROUPS {
          first := j;
        }
      }
    }

    /** The first loop over a pioneer's pals: the slots before it, aged already. */
    method AgeSummarizeBefore(i: nat) returns (summary: set<int>, pal: nat)
      requires Valid() && i < NUM_IGMP_GROUPS
      ensures summary == AgeSummary(Abs(), i, i) && FirstSoFar(i, i, pal)
    {
      summary, pal := {}, NUM_IGMP_GROUPS;
      for j := 0 to i
        invariant summary == AgeSummary(Abs(), i, j) && FirstSoFar(i, j, pal)
      {
        summary, pal := AddAged(i, j, lists[j].uplist, summary, pal);
      }
    }

    /** The pioneer's own ports, between the loops. */
    method AddOwn(i: nat, summary: set<int>, ghost pal: nat) returns (sum: set<int>)
      requires Valid() && i < NUM_IGMP_GROUPS && summary == AgeSummary(Abs(), i, i) && FirstSoFar(i, i, pal)
      ensures sum == AgeSummary(Abs(), i, i + 1) && FirstSoFar(i, i + 1, pal)
    {
      var ownRouterPorts := FindRouterPorts(db[i].vid, vlanCount);
      sum := summary + (lists[i].age + ownRouterPorts);
    }

    /** The ports that the ageing half of igmpsnoop_one_sec finds for a pioneer's entry, and its first pal. */
    method AgeSummarize(i: nat) returns (summary: set<int>, pal: nat)
      requires Valid() && i < NUM_IGMP_GROUPS
      ensures summary == AgeSummary(Abs(), i, NUM_IGMP_GROUPS) && pal == FirstPal(db[..], i, 0)
    {
      summary, pal := AgeSummarizeBefore(i);
      summary := AddOwn(i, summary, pal);
      for j := i + 1 to NUM_IGMP_GROUPS
        invariant summary == AgeSummary(Abs(), i, j) && FirstSoFar(i, j, pal)
      {
        summary, pal := AddAged(i, j, lists[j].age, summary, pal);
      }
    }

    /** IPMCuplist_aging */
    method ListAge(i: nat)
      requires Valid() && i < NUM_IGMP_GROUPS
      modifies lists
      ensures Valid() && Abs() == AgeLists(old(Abs()), i)
    {
      ghost var was := lists[..];
      lists[i] := lists[i].(uplist := lists[i].age);
      lists[i] := lists[i].(age := {});
      assert lists[..] == was[i := lists[i]];
    }

    /** The visit of one slot. */
    method AgeVisit(i: nat)
      requires Valid() && i < NUM_IGMP_GROUPS
      modifies this`l2, db, lists
      ensures Valid() && Abs() == AgeSlot(old(Abs()), i)
    {
      AgeSlotKeepsInv(Abs(), i);
      if !IsValid(db[i].gda) {
        return;
      }
      var silent, pal := lists[i].age == {}, NUM_IGMP_GROUPS;
      if IsPioneer(db[i].gda) {
        var summary;
        summary, pal := AgeSummarize(i);
        L2Cast(i, summary);
      }
      if !silent {
        ListAge(i);
      } else if pal < NUM_IGMP_GROUPS {
        MovePal(i, pal);
        ListAge(i);
      } else {
        EraseEntry(i);
      }
    }

    /** The ageing half of igmpsnoop_one_sec. */
    method AgeOut()
      requires Valid()
      modifies this`l2, db, lists
      ensures Valid() && Abs() == AgeFrom(old(Abs()), 0)
    {
      for i := 0 to NUM_IGMP_GROUPS
        invariant Valid() && AgeFrom(Abs(), i) == AgeFrom(old(Abs()), 0)
      {
        AgeVisit(i);
      }
    }
  }

  /** igmpLeave_t */
  datatype LeaveSlot = LeaveSlot(gda: Word, vid: nat, uport: int, timeout: nat, next: nat)

  function RecordOf(slot: LeaveSlot): Leave {
    Leave(slot.gda, slot.vid, slot.uport, slot.timeout)
  }

  function Nexts(slots: seq<LeaveSlot>): (next: seq<nat>)
    ensures |next| == |slots| && forall i {:trigger next[i]} :: 0 <= i < |slots| ==> next[i] == slots[i].next
  {
    seq(|slots|, i requires 0 <= i < |slots| => slots[i].next)
  }

  /** Queue and free pool split the slots: a slot is free exactly if its address is zero. */
  ghost predicate SplitsPool(slots: seq<LeaveSlot>, order: seq<nat>) {
    forall i {:trigger slots[i]} :: 0 <= i < |slots| ==> (slots[i].gda != 0 <==> i in order)
  }

  ghost predicate QueueOk(slots: seq<LeaveSlot>, head: nat, order: seq<nat>) {
    Chained(Nexts(slots), head, order) && SplitsPool(slots, order)
  }

  ghost function Records(slots: seq<LeaveSlot>, order: seq<nat>): (q: seq<Leave>)
    requires forall k {:trigger order[k]} :: 0 <= k < |order| ==> order[k] < |slots|
    ensures |q| == |order| && forall k :: 0 <= k < |order| ==> q[k] == RecordOf(slots[order[k]])
  {
    seq(|order|, k requires 0 <= k < |order| => RecordOf(slots[order[k]]))
  }

  /** Record j was bypassed and its slot freed. */
  ghost predicate Freed(slots: seq<LeaveSlot>, after: seq<LeaveSlot>, order: seq<nat>, j: nat)
    requires j < |order| && forall k {:trigger order[k]} :: 0 <= k < |order| ==> order[k] < |slots|
  {
    |after| == |slots| && after[order[j]].gda == 0 &&
    forall i {:trigger after[i]} :: 0 <= i < |slots| && i != order[j] ==>
      after[i] == if j > 0 && i == order[j - 1] then slots[i].(next := slots[order[j]].next) else slots[i]
  }

  lemma FreedKeepsRecords(slots: seq<LeaveSlot>, after: seq<LeaveSlot>, order: seq<nat>, j: nat, k: nat)
    requires j < |order| && forall h {:trigger order[h]} :: 0 <= h < |order| ==> order[h] < |slots|
    requires Freed(slots, after, order, j) && k < |order| && order[k] != order[j]
    ensures RecordOf(after[order[k]]) == RecordOf(slots[order[k]])
  {
  }

  lemma FreedDropsRecord(slots: seq<LeaveSlot>, after: seq<LeaveSlot>, order: seq<nat>, j: nat)
    requires j < |order| && forall h {:trigger order[h]} :: 0 <= h < |order| ==> order[h] < |slots|
    requires forall h :: 0 <= h < |order| && h != j ==> order[h] != order[j]
    requires Freed(slots, after, order, j) && forall h :: 0 <= h < |order| - 1 ==> RemoveAt(order, j)[h] < |after|
    ensures Records(after, RemoveAt(order, j)) == Records(slots, order)[..j] + Records(slots, order)[j + 1..]
  {
    var q, r := Records(slots, order), Records(after, RemoveAt(order, j));
    forall k | 0 <= k < |r| ensures r[k] == (q[..j] + q[j + 1..])[k] {
      RemovedIndex(order, j, k);
      FreedKeepsRecords(slots, after, order, j, if k < j then k else k + 1);
    }
  }

  lemma FreedIsQueue(slots: seq<LeaveSlot>, after: seq<LeaveSlot>, head: nat, order: seq<nat>, j: nat)
    requires QueueOk(slots, head, order) && j < |order| && Freed(slots, after, order, j)
    ensures QueueOk(after, if j == 0 then slots[order[0]].next else head, RemoveAt(order, j))
    ensures Records(after, RemoveAt(order, j)) == Records(slots, order)[..j] + Records(slots, order)[j + 1..]
  {
    BypassedIsChained(Nexts(slots), Nexts(after), head, order, j);
    FreedDropsRecord(slots, after, order, j);
    forall i {:trigger after[i]} | 0 <= i < |after| ensures after[i].gda != 0 <==> i in RemoveAt(order, j) {
      RemovedMembers(order, j, i);
      assert slots[i].gda != 0 <==> i in order;
    }
  }

  /** A free slot was filled and points to the old head. */
  ghost predicate Filled(slots: seq<LeaveSlot>, after: seq<LeaveSlot>, head: nat, index: nat) {
    |after| == |slots| && index < |slots| && after[index].gda != 0 && after[index].next == head &&
    forall i {:trigger after[i]} :: 0 <= i < |slots| && i != index ==> after[i] == slots[i]
  }

  lemma FilledKeepsRecord(slots: seq<LeaveSlot>, after: seq<LeaveSlot>, head: nat, index: nat, i: nat)
    requires Filled(slots, after, head, index) && i < |slots| && i != index
    ensures RecordOf(after[i]) == RecordOf(slots[i])
  {
  }

  lemma FilledAddsRecord(slots: seq<LeaveSlot>, after: seq<LeaveSlot>, head: nat, order: seq<nat>, more: seq<nat>)
    requires more != [] && Filled(slots, after, head, more[0]) && |more| == |order| + 1
    requires forall k {:trigger order[k]} :: 0 <= k < |order| ==> order[k] == more[k + 1] != more[0]
    requires forall k {:trigger more[k]} :: 0 <= k < |more| ==> more[k] < |slots|
    ensures Records(after, more) == [RecordOf(after[more[0]])] + Records(slots, order)
  {
    forall k | 0 <= k < |order| ensures Records(after, more)[k + 1] == Records(slots, order)[k] {
      FilledKeepsRecord(slots, after, head, more[0], order[k]);
    }
  }

  lemma FilledIsQueue(slots: seq<LeaveSlot>, after: seq<LeaveSlot>, head: nat, order: seq<nat>, index: nat)
    requires QueueOk(slots, head, order) && index !in order && Filled(slots, after, head, index)
    ensures QueueOk(after, index, InsertAt(order, 0, index))
    ensures Records(after, InsertAt(order, 0, index)) == [RecordOf(after[index])] + Records(slots, order)
  {
    LinkedInIsChained(Nexts(slots), Nexts(after), head, order, 0, index);
    forall i {:trigger after[i]} | 0 <= i < |after| ensures after[i].gda != 0 <==> i in InsertAt(order, 0, index) {
      InsertedMembers(order, 0, index, i);
      assert slots[i].gda != 0 <==> i in order;
    }
    forall k {:trigger order[k]} | 0 <= k < |order|
      ensures order[k] == InsertAt(order, 0, index)[k + 1] != index
    {
      InsertedIndex(order, 0, index, k);
      assert order[k] in order;
    }
    FilledAddsRecord(slots, after, head, order, InsertAt(order, 0, index));
  }

  /** A timeout changes: the same queue in the same order. */
  lemma TimeoutIsQueue(slots: seq<LeaveSlot>, after: seq<LeaveSlot>, head: nat, order: seq<nat>, k: nat)
    requires QueueOk(slots, head, order) && k < |order| && |after| == |slots|
    requires after == slots[order[k] := slots[order[k]].(timeout := after[order[k]].timeout)]
    ensures QueueOk(after, head, order)
    ensures Records(after, order) ==
            Records(slots, order)[k := Records(slots, order)[k].(timeout := after[order[k]].timeout)]
  {
    forall j | 0 <= j < |order| ensures LinkAt(Nexts(after), order, j) {
      assert LinkAt(Nexts(slots), order, j);
    }
    forall i {:trigger after[i]} | 0 <= i < |after| ensures after[i].gda != 0 <==> i in order {
      assert slots[i].gda != 0 <==> i in order;
    }
  }

  // ---------- as many records as slots, and no more ----------

  lemma DistinctAreFew(order: seq<nat>)
    requires forall j, k :: 0 <= j < k < |order| ==> order[j] != order[k]
    requires forall h :: 0 <= h < MAX_IGMP_LEAVE ==> h in order
    ensures |order| >= MAX_IGMP_LEAVE
  {
    DistinctCount(order);
    SubsetCount(NumbersBelow(MAX_IGMP_LEAVE), Elements(order));
  }

  lemma FullIsEverySlot(order: seq<nat>, i: nat)
    requires forall j, k :: 0 <= j < k < |order| ==> order[j] != order[k]
    requires (forall k {:trigger order[k]} :: 0 <= k < |order| ==> order[k] < MAX_IGMP_LEAVE)
    requires i < MAX_IGMP_LEAVE && i !in order
    ensures |order| < MAX_IGMP_LEAVE
  {
    DistinctCount(order);
    SubsetCount(Elements(order), NumbersBelow(MAX_IGMP_LEAVE));
  }

  /** The records before position k are granted already. */
  ghost predicate GrantedUpTo(q: seq<Leave>, r: seq<Leave>, vid: nat, gda: Word, k: nat) {
    |r| == |q| && forall j {:trigger r[j]} :: 0 <= j < |r| ==> r[j] == if j < k then Granted(q, vid, gda)[j] else q[j]
  }

  // ---------- where a leave message is recorded ----------

  /** igmpLeaveP_new: a slot counts as free if its address is zero. */
  function FreeSlot(slots: seq<LeaveSlot>, i: nat): (k: nat)
    requires i <= |slots|
    ensures i <= k <= |slots|
    ensures k < |slots| ==> slots[k].gda == 0
    ensures forall j :: i <= j < k ==> slots[j].gda != 0
    decreases |slots| - i
  {
    if i == |slots| || slots[i].gda == 0 then i else FreeSlot(slots, i + 1)
  }

  /** Result, slots and head after igmpLeaveQ_insert of record r, for a queue that is linked in this order. */
  ghost function InsertedSlots(slots: seq<LeaveSlot>, head: nat, order: seq<nat>, r: Leave, known: bool)
    : (bool, seq<LeaveSlot>, nat)
    requires forall k {:trigger order[k]} :: 0 <= k < |order| ==> order[k] < |slots|
  {
    var k, free := Position(Records(slots, order), r.vid, r.gda, r.uport, 0), FreeSlot(slots, 0);
    if !known then (false, slots, head)
    else if k < |order| then
      var slot := slots[order[k]];
      (true, slots[order[k] := slot.(timeout := if slot.timeout < r.timeout then slot.timeout else r.timeout)], head)
    else if free < |slots| then (true, slots[free := LeaveSlot(r.gda, r.vid, r.uport, r.timeout, head)], free)
    else (false, slots, head)
  }

  /** The slots hold a well-formed queue, in whatever order. */
  ghost predicate HoldsQueue(slots: seq<LeaveSlot>, head: nat) {
    exists order :: QueueOk(slots, head, order)
  }

  lemma QueuedIsInUse(slots: seq<LeaveSlot>, head: nat, order: seq<nat>, k: nat)
    requires QueueOk(slots, head, order) && k < |order|
    ensures slots[order[k]].gda != 0
  {
    assert order[k] in order;
  }

  lemma ZeroIsNotQueued(slots: seq<LeaveSlot>, head: nat, order: seq<nat>, r: Leave)
    requires QueueOk(slots, head, order) && r.gda == 0
    ensures Position(Records(slots, order), r.vid, r.gda, r.uport, 0) == |order|
  {
    var q := Records(slots, order);
    var k := Position(q, r.vid, r.gda, r.uport, 0);
    if k < |q| {
      QueuedIsInUse(slots, head, order, k);
      PositionHit(q, r, 0);
    }
  }

  lemma HeadIsInUse(slots: seq<LeaveSlot>, head: nat)
    requires head < |slots|
    ensures HoldsQueue(slots, head) ==> slots[head].gda != 0
  {
    if HoldsQueue(slots, head) {
      var order :| QueueOk(slots, head, order);
      QueuedIsInUse(slots, head, order, 0);
    }
  }

  lemma HeadLinksOn(next: seq<nat>, head: nat, order: seq<nat>)
    requires Chained(next, head, order) && head < |next|
    ensures next[head] != head
  {
    assert LinkAt(next, order, 0);
  }

  /** A leave message leaves a well-formed queue if and only if it is refused or its address is not zero. */
  lemma InsertedIsQueueExactly(slots: seq<LeaveSlot>, head: nat, order: seq<nat>, r: Leave, known: bool)
    requires QueueOk(slots, head, order)
    ensures
      var (ok, after, first) := InsertedSlots(slots, head, order, r, known);
      HoldsQueue(after, first) <==> r.gda != 0 || !ok
  {
    var (ok, after, first) := InsertedSlots(slots, head, order, r, known);
    var k := Position(Records(slots, order), r.vid, r.gda, r.uport, 0);
    if !ok {
      assert HoldsQueue(slots, head);
    } else if k < |order| {
      if r.gda == 0 {
        ZeroIsNotQueued(slots, head, order, r);
      }
      TimeoutIsQueue(slots, after, head, order, k);
    } else if r.gda != 0 {
      FilledIsQueue(slots, after, head, order, first);
    } else {
      HeadIsInUse(after, first);
    }
  }

  /** A removed group leaves a zero address behind, and the search finds it. */
  lemma ZeroGroupIsKnown(s: Snoop, e: nat)
    requires WellFormed(s) && e < |s.db|
    ensures Known(Erase(s, e), Leave(0, s.db[e].vid, 0, 0))
  {
    assert Names(Erase(s, e).db[e], s.db[e].vid, 0);
  }

  /**
   After an accepted leave for address zero, the next leave that needs a slot is given the
   same one: the head is linked to itself, so no walk from it ends.
   */
  lemma ZeroLeaveThenLeave(slots: seq<LeaveSlot>, head: nat, order: seq<nat>, zero: Leave, r: Leave)
    requires QueueOk(slots, head, order) && zero.gda == 0 && InsertedSlots(slots, head, order, zero, true).0
    ensures
      var (_, once, first) := InsertedSlots(slots, head, order, zero, true);
      Chained(Nexts(once), first, [first] + order) &&
      (Position(Records(once, [first] + order), r.vid, r.gda, r.uport, 0) == |order| + 1 ==>
        var (ok, twice, again) := InsertedSlots(once, first, [first] + order, r, true);
        ok && again == first && twice[first].next == first && forall some :: !Chained(Nexts(twice), first, some))
  {
    ZeroIsNotQueued(slots, head, order, zero);
    var (_, once, first) := InsertedSlots(slots, head, order, zero, true);
    LinkedInIsChained(Nexts(slots), Nexts(once), head, order, 0, first);
    assert InsertAt(order, 0, first) == [first] + order;
    var (_, twice, again) := InsertedSlots(once, first, [first] + order, r, true);
    if Position(Records(once, [first] + order), r.vid, r.gda, r.uport, 0) == |order| + 1 {
      forall some ensures !Chained(Nexts(twice), first, some) {
        if Chained(Nexts(twice), first, some) {
          HeadLinksOn(Nexts(twice), first, some);
        }
      }
    }
  }

  /** igmpLV and igmpLeaveQ */
  class LeaveQueue {
    const lv: array<LeaveSlot>
    var head: nat
    ghost var order: seq<nat>

    ghost predicate Valid()
      reads this, lv
    {
      lv.Length == MAX_IGMP_LEAVE && QueueOk(lv[..], head, order)
    }

    ghost function Contents(): seq<Leave>
      requires Valid()
      reads this, lv
    {
      Records(lv[..], order)
    }

    /** The leave-queue part of igmpsnoop_database_init. */
    constructor ()
      ensures Valid() && Contents() == [] && fresh(lv)
    {
      lv := new LeaveSlot[MAX_IGMP_LEAVE](_ => LeaveSlot(0, 0, 0, 0, MAX_IGMP_LEAVE));
      head, order := MAX_IGMP_LEAVE, [];
    }

    /** Removing record j: at the head of the queue, or behind the record last passed. */
    method Unlink(index: nat, qlast: nat, ghost j: nat) returns (next: nat, last: nat)
      requires Valid() && j < |order| && index == order[j] && (j > 0 ==> qlast == order[j - 1])
      modifies this, lv
      ensures Valid() && Contents() == old(Contents())[..j] + old(Contents())[j + 1..]
      ensures order == RemoveAt(old(order), j)
      ensures next == if j < |order| then order[j] else MAX_IGMP_LEAVE
      ensures last == if j == 0 then next else qlast
    {
      ghost var slots := lv[..];
      assert LinkAt(Nexts(slots), order, j);
      if index == head {
        head := lv[index].next;
        next, last := head, head;
      } else {
        lv[qlast] := lv[qlast].(next := lv[index].next);
        next, last := lv[qlast].next, qlast;
      }
      lv[index] := lv[index].(gda := 0, next := MAX_IGMP_LEAVE);
      FreedIsQueue(slots, lv[..], old(head), order, j);
      order := RemoveAt(order, j);
    }

    method SetTimeout(index: nat, timeout: nat, ghost j: nat)
      requires Valid() && j < |order| && index == order[j]
      modifies lv
      ensures Valid() && Contents() == old(Contents())[j := old(Contents())[j].(timeout := timeout)]
      ensures lv[..] == old(lv[..])[index := old(lv[index]).(timeout := timeout)]
    {
      ghost var slots := lv[..];
      lv[index] := lv[index].(timeout := timeout);
      TimeoutIsQueue(slots, lv[..], head, order, j);
    }

    /** The walk stands at record j, or at the end mark; qlast is the record before it. */
    ghost predicate At(index: nat, qlast: nat, next: nat, j: nat, started: bool)
      requires Valid()
      reads this, lv
    {
      (index < MAX_IGMP_LEAVE ==> j < |order| && index == order[j]) &&
      (j > 0 ==> started && j <= |order| && qlast == order[j - 1]) &&
      next == if started then index else MAX_IGMP_LEAVE
    }

    /** What the whole tick will have done, seen from where the walk stands. */
    ghost function Outcome(s: Snoop, index: nat, j: nat, started: bool): Ticked
      requires Valid() && WellFormed(s) && (index < MAX_IGMP_LEAVE ==> j < |order|)
      reads this, lv
    {
      if index < MAX_IGMP_LEAVE then TickFrom(s, Contents(), j, started) else Ticked(s, Contents())
    }

    /** Rounds left at most: a record with timeout 1 may need two. */
    ghost function Remaining(index: nat, j: nat): int
      requires Valid()
      reads this, lv
    {
      2 * (|order| - j) - if index < MAX_IGMP_LEAVE && lv[index].timeout == 0 then 1 else 0
    }

    /** A record that still counts is passed. */
    method Pass(groups: GroupTable, index: nat, ghost j: nat, ghost started: bool) returns (next: nat)
      requires Valid() && groups.Valid() && j < |order| && index == order[j] && Countdown(lv[index].timeout) != 0
      modifies lv
      ensures Valid() && groups.Valid() && At(next, index, next, j + 1, true)
      ensures Outcome(groups.Abs(), next, j + 1, true) == old(TickFrom(groups.Abs(), Contents(), j, started))
      ensures Remaining(next, j + 1) < old(Remaining(index, j))
    {
      ghost var s, q := groups.Abs(), Contents();
      SetTimeout(index, Countdown(lv[index].timeout), j);
      TickPasses(s, q, j, started, Contents());
      next := lv[index].next;
      assert LinkAt(Nexts(lv[..]), order, j);
    }

    /** A record that ran out, of a known group. */
    method RunOut(groups: GroupTable, i: nat, index: nat, qlast: nat, ghost j: nat, ghost started: bool)
      returns (next: nat, last: nat)
      requires Valid() && groups.Valid() && j < |order| && index == order[j] && (j > 0 ==> qlast == order[j - 1])
      requires Countdown(lv[index].timeout) == 0
      requires i == Find(groups.db[..], lv[index].vid, lv[index].gda, 0) < NUM_IGMP_GROUPS
      modifies this, lv, groups`l2, groups.db, groups.lists
      ensures Valid() && groups.Valid() && At(next, last, next, j, true)
      ensures Outcome(groups.Abs(), next, j, true) == old(TickFrom(groups.Abs(), Contents(), j, started))
      ensures |order| == |old(order)| - 1
    {
      ghost var s, q := groups.Abs(), Contents();
      SetTimeout(index, Countdown(lv[index].timeout), j);
      groups.ExpirePort(i, lv[index].uport);
      next, last := Unlink(index, qlast, j);
      TickUnlinks(s, q, j, started, Contents());
    }

    /** A record that ran out, of an unknown group, stays where it is with timeout 0. */
    method Stay(index: nat, ghost s: Snoop, ghost j: nat, ghost started: bool)
      requires Valid() && WellFormed(s) && j < |order| && index == order[j] && Countdown(lv[index].timeout) == 0
      requires Find(s.db, lv[index].vid, lv[index].gda, 0) == |s.db|
      modifies lv
      ensures Valid() && lv[index].timeout == 0
      ensures old(TickFrom(s, Contents(), j, started))
           == if started then TickFrom(s, Contents(), j, true) else Ticked(s, Contents())
    {
      ghost var q := Contents();
      SetTimeout(index, Countdown(lv[index].timeout), j);
      assert Contents()[j].timeout == 0;
      TickLosesGroup(s, q, j, started, Contents());
    }

    /** A round for a record that ran out. */
    method TimeOut(groups: GroupTable, index: nat, qlast: nat, next: nat, ghost j: nat, ghost started: bool)
      returns (next': nat, qlast': nat, ghost started': bool)
      requires Valid() && groups.Valid() && index < MAX_IGMP_LEAVE && At(index, qlast, next, j, started)
      requires Countdown(lv[index].timeout) == 0
      modifies this, lv, groups`l2, groups.db, groups.lists
      ensures Valid() && groups.Valid() && At(next', qlast', next', j, started')
      ensures Outcome(groups.Abs(), next', j, started') == old(TickFrom(groups.Abs(), Contents(), j, started))
      ensures next' < MAX_IGMP_LEAVE ==> Remaining(next', j) < old(Remaining(index, j))
    {
      var i := groups.Search(lv[index].vid, lv[index].gda);
      if i < NUM_IGMP_GROUPS {
        next', qlast' := RunOut(groups, i, index, qlast, j, started);
        started' := true;
      } else {
        next', qlast', started' := next, qlast, started;
        Stay(index, groups.Abs(), j, started);
      }
    }

    /** The leave-queue part of igmpsnoop_one_sec. */
    method Tick(groups: GroupTable)
      requires Valid() && groups.Valid()
      modifies this, lv, groups`l2, groups.db, groups.lists
      ensures Valid() && groups.Valid()
      ensures Ticked(groups.Abs(), Contents()) == IgmpLeaves.Tick(old(groups.Abs()), old(Contents()), 0, false)
    {
      var index: nat, qlast: nat, next: nat := head, head, MAX_IGMP_LEAVE;
      ghost var j: nat, started := 0, false;
      while index < MAX_IGMP_LEAVE
        invariant Valid() && groups.Valid() && At(index, qlast, next, j, started)
        invariant Outcome(groups.Abs(), index, j, started) == old(TickFrom(groups.Abs(), Contents(), 0, false))
        decreases if index < MAX_IGMP_LEAVE then Remaining(index, j) else -1
      {
        if Countdown(lv[index].timeout) != 0 {
          next := Pass(groups, index, j, started);
          qlast, j, started := index, j + 1, true;
        } else {
          next, qlast, started := TimeOut(groups, index, qlast, next, j, started);
        }
        index := next;
      }
    }

    /** igmpLeaveP_search: the record, and the one before it. */
    method PSearch(vid: nat, gda: Word, uport: int) returns (p: nat, prev: nat, ghost k: nat)
      requires Valid()
      ensures k == Position(Contents(), vid, gda, uport, 0)
      ensures
        var first := Position(Contents(), vid, gda, uport, 0);
        p == if first < |order| then order[first] else MAX_IGMP_LEAVE
      ensures k > 0 ==> k <= |order| && prev == order[k - 1]
    {
      p, prev, k := head, head, 0;
      while p < MAX_IGMP_LEAVE
        invariant k > 0 ==> k <= |order| && prev == order[k - 1]
        invariant k <= |order| && p == if k < |order| then order[k] else MAX_IGMP_LEAVE
        invariant Position(Contents(), vid, gda, uport, 0) == Position(Contents(), vid, gda, uport, k)
        decreases |order| - k
      {
        if lv[p].vid == vid && lv[p].gda == gda && lv[p].uport == uport {
          return;
        }
        assert LinkAt(Nexts(lv[..]), order, k);
        p, prev, k := lv[p].next, p, k + 1;
      }
    }

    /** igmpLeaveP_new */
    method PNew() returns (i: nat)
      requires Valid()
      ensures i == FreeSlot(lv[..], 0)
      ensures if |order| < MAX_IGMP_LEAVE then i < MAX_IGMP_LEAVE && i !in order else i == MAX_IGMP_LEAVE
    {
      i := 0;
      while i < MAX_IGMP_LEAVE
        invariant i <= MAX_IGMP_LEAVE && FreeSlot(lv[..], i) == FreeSlot(lv[..], 0)
        invariant forall h :: 0 <= h < i ==> h in order
      {
        if lv[i].gda == 0 {
          FullIsEverySlot(order, i);
          return;
        }
        i := i + 1;
      }
      DistinctAreFew(order);
    }

    /** igmpLeaveQ_insert for the one port a leave message arrives on. */
    method Insert(groups: GroupTable, vid: nat, gda: Word, uport: int) returns (ok: bool)
      requires Valid() && groups.Valid()
      modifies this, lv
      ensures
        var r := Leave(gda, vid, uport, IGMP_LEAVE_TIMEOUT);
        var known := Find(groups.db[..], vid, gda, 0) < NUM_IGMP_GROUPS;
        (ok, lv[..], head) == InsertedSlots(old(lv[..]), old(head), old(order), r, known) &&
        ok == Inserted(old(Contents()), r, known).0 &&
        (gda != 0 || !ok ==> Valid() && Contents() == Inserted(old(Contents()), r, known).1)
    {
      var group := groups.Search(vid, gda);
      if group >= NUM_IGMP_GROUPS {
        return false;
      }
      var index, _, k := PSearch(vid, gda, uport);
      if index >= MAX_IGMP_LEAVE {
        index := PNew();
        if index >= MAX_IGMP_LEAVE {
          return false;
        }
        PushFront(index, vid, gda, uport);
      } else {
        SetTimeout(index, if lv[index].timeout < IGMP_LEAVE_TIMEOUT then lv[index].timeout else IGMP_LEAVE_TIMEOUT, k);
      }
      return true;
    }

    /** A free slot becomes the new head; it stays free if the address is zero. */
    method PushFront(index: nat, vid: nat, gda: Word, uport: int)
      requires Valid() && index < MAX_IGMP_LEAVE && index !in order
      modifies this, lv
      ensures head == index
      ensures lv[..] == old(lv[..])[index := LeaveSlot(gda, vid, uport, IGMP_LEAVE_TIMEOUT, old(head))]
      ensures gda != 0 ==> Valid() && Contents() == [Leave(gda, vid, uport, IGMP_LEAVE_TIMEOUT)] + old(Contents())
    {
      ghost var slots := lv[..];
      lv[index] := LeaveSlot(gda, vid, uport, IGMP_LEAVE_TIMEOUT, head);
      head := index;
      if gda != 0 {
        FilledIsQueue(slots, lv[..], old(head), order, index);
      }
      order := InsertAt(order, 0, index);
    }

    /** igmpLeaveQ_grant */
    method Grant(vid: nat, gda: Word)
      requires Valid()
      modifies lv
      ensures Valid() && Contents() == Granted(old(Contents()), vid, gda)
    {
      ghost var q := Contents();
      var p: nat := head;
      ghost var k: nat := 0;
      while p < MAX_IGMP_LEAVE
        invariant Valid() && k <= |order| && p == if k < |order| then order[k] else MAX_IGMP_LEAVE
        invariant GrantedUpTo(q, Contents(), vid, gda, k)
        decreases |order| - k
      {
        if lv[p].vid == vid && lv[p].gda == gda {
          SetTimeout(p, IGMP_LEAVE_TIMEOUT, k);
        }
        assert LinkAt(Nexts(lv[..]), order, k);
        p, k := lv[p].next, k + 1;
      }
    }

    /** igmpLeaveQ_delete for the one port a report arrives on. */
    method Withdraw(vid: nat, gda: Word, uport: int) returns (ok: bool)
      requires Valid()
      modifies this, lv
      ensures Valid() && (ok, Contents()) == Withdrawn(old(Contents()), vid, gda, uport)
    {
      var index, prev, k := PSearch(vid, gda, uport);
      if index >= MAX_IGMP_LEAVE {
        return false;
      }
      var _, _ := Unlink(index, prev, k);
      return true;
    }
  }
}
