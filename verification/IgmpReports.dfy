/**
 Membership reports and ageing in the IGMP snooping database (appl/igmpsnoop): what they do
 to groups and shared layer-2 entries, and the runs of reports, leaves, queries and seconds.
 */
module IgmpReports {
  import opened Uplists
  import opened Words
  import opened IgmpGroups
  import opened IgmpLeaves
  import opened IgmpEntries

  // ---------- a report ----------

  /** igmpDB_new: the first slot whose valid bit is clear. */
  function NewSlot(db: seq<DbEntry>, i: nat): (k: nat)
    requires i <= |db|
    ensures i <= k <= |db|
    ensures k < |db| ==> !IsValid(db[k].gda)
    ensures forall j :: i <= j < k ==> IsValid(db[j].gda)
    decreases |db| - i
  {
    if i == |db| || !IsValid(db[i].gda) then i else NewSlot(db, i + 1)
  }

  /** are_pals; the valid bit is not looked at. */
  predicate PalSlots(db: seq<DbEntry>, i: int, j: int) {
    0 <= i < |db| && 0 <= j < |db| && j != i && Pals(db[i], db[j])
  }

  function AnyPal(db: seq<DbEntry>, i: nat, j: nat): (k: nat)
    requires i < |db| && j <= |db|
    ensures j <= k <= |db|
    ensures k < |db| ==> PalSlots(db, i, k)
    ensures forall h :: j <= h < k ==> !PalSlots(db, i, h)
    decreases |db| - j
  {
    if j == |db| || PalSlots(db, i, j) then j else AnyPal(db, i, j + 1)
  }

  /** The pioneer among the pals of slot i. */
  function PioneerPalOf(db: seq<DbEntry>, i: nat, j: nat): (k: nat)
    requires i < |db| && j <= |db|
    ensures j <= k <= |db|
    ensures k < |db| ==> PalSlots(db, i, k) && IsPioneer(db[k].gda)
    ensures forall h :: j <= h < k ==> !(PalSlots(db, i, h) && IsPioneer(db[h].gda))
    decreases |db| - j
  {
    if j == |db| || (PalSlots(db, i, j) && IsPioneer(db[j].gda)) then j else PioneerPalOf(db, i, j + 1)
  }

  /** IPMCuplist_add */
  function AddToLists(s: Snoop, i: nat, ports: PortSet): Snoop
    requires WellFormed(s) && i < |s.db|
  {
    s.(lists := s.lists[i := PortLists(s.lists[i].age + ports, s.lists[i].uplist + ports)])
  }

  /** L2MCportbmp_update with L2MCportbmp_ADD: an entry that is not there stays away. */
  function AddToEntry(s: Snoop, j: nat, ports: PortSet): Snoop
    requires WellFormed(s) && j < |s.db|
  {
    var k := L2KeyOf(s.db[j]);
    if k in s.l2 then s.(l2 := s.l2[k := s.l2[k] + ports]) else s
  }

  /** A new group in slot i: its entry is written with the reported ports, and it is a follower if it has a pal. */
  function Enter(s: Snoop, i: nat, vid: nat, gda: Word, ports: PortSet): Snoop
    requires WellFormed(s) && i < |s.db|
  {
    var entry: PortSet := ports + RouterPorts(s.routers, vid, 0, s.vlanCount) * ALL_PORTS;
    var db := s.db[i := DbEntry(gda, vid)];
    s.(l2 := s.l2[L2Key(vid, ComposeMac(gda)) := entry],
       db := if AnyPal(db, i, 0) < |db| then db[i := DbEntry(Address(gda), vid)] else db)
  }

  /** A group in slot i has a report: its pioneer's entry and its own lists get the ports. */
  function Rejoin(s: Snoop, i: nat, ports: PortSet): Snoop
    requires WellFormed(s) && i < |s.db|
  {
    var j := if IsPioneer(s.db[i].gda) then i else PioneerPalOf(s.db, i, 0);
    AddToLists(if j < |s.db| then AddToEntry(s, j, ports) else s, i, ports)
  }

  /** igmpDB_update; room is the answer of the multicast table to a new entry. */
  function Update(s: Snoop, vid: nat, gda: Word, ports: PortSet, room: bool): (r: (Snoop, bool))
    requires WellFormed(s)
    ensures WellFormed(r.0) && |r.0.db| == |s.db| && r.0.routers == s.routers && r.0.vlanCount == s.vlanCount
  {
    var i := Find(s.db, vid, gda, 0);
    if i < |s.db| then (Rejoin(s, i, ports), true)
    else
      var n := NewSlot(s.db, 0);
      if n == |s.db| then (s, false)
      else if !room then (s.(db := s.db[n := s.db[n].(gda := 0)]), false)
      else (AddToLists(Enter(s, n, vid, gda, ports), n, ports), true)
  }

  // ---------- ageing ----------

  /** What pal j adds to the summary of the pioneer in slot i: its list if it was aged already, else its age bits. */
  function AgedPart(s: Snoop, i: nat, j: nat): set<int>
    requires WellFormed(s) && i < |s.db| && j < |s.db|
  {
    if ValidPal(s.db, i, j) || j == i then
      (if j < i then s.lists[j].uplist else s.lists[j].age) + RouterPorts(s.routers, s.db[j].vid, 0, s.vlanCount)
    else {}
  }

  function AgeSummary(s: Snoop, i: nat, n: nat): set<int>
    requires WellFormed(s) && i < |s.db| && n <= |s.db|
  {
    if n == 0 then {} else AgeSummary(s, i, n - 1) + AgedPart(s, i, n - 1)
  }

  /** IPMCuplist_aging */
  function AgeLists(s: Snoop, i: nat): Snoop
    requires WellFormed(s) && i < |s.db|
  {
    s.(lists := s.lists[i := PortLists({}, s.lists[i].age)])
  }

  /** The visit of slot i in the ageing half of igmpsnoop_one_sec. */
  function AgeSlot(s: Snoop, i: nat): (t: Snoop)
    requires WellFormed(s) && i < |s.db|
    ensures WellFormed(t) && |t.db| == |s.db| && t.routers == s.routers && t.vlanCount == s.vlanCount
  {
    if !IsValid(s.db[i].gda) then s
    else
      var c := if IsPioneer(s.db[i].gda) then Cast(s, i, AgeSummary(s, i, |s.db|)) else s;
      var pal := FirstPal(s.db, i, 0);
      if s.lists[i].age != {} then AgeLists(c, i)
      else if IsPioneer(s.db[i].gda) && pal < |s.db| then AgeLists(TakeOver(c, i, pal), i)
      else Erase(c, i)
  }

  function AgeFrom(s: Snoop, i: nat): (t: Snoop)
    requires WellFormed(s) && i <= |s.db|
    ensures WellFormed(t) && |t.db| == |s.db| && t.routers == s.routers && t.vlanCount == s.vlanCount
    decreases |s.db| - i
  {
    if i == |s.db| then s else AgeFrom(AgeSlot(s, i), i + 1)
  }

  lemma {:induction false} AgedPartCounts(s: Snoop, i: nat, n: nat, j: nat)
    requires WellFormed(s) && i < |s.db| && j < n <= |s.db|
    ensures AgedPart(s, i, j) <= AgeSummary(s, i, n)
  {
    if j == n - 1 {
    } else {
      AgedPartCounts(s, i, n - 1, j);
    }
  }

  lemma {:induction false} NothingAged(s: Snoop, i: nat, n: nat)
    requires WellFormed(s) && i < |s.db| && n <= |s.db| && forall j :: 0 <= j < n ==> AgedPart(s, i, j) == {}
    ensures AgeSummary(s, i, n) == {}
  {
    if n == 0 {
    } else {
      NothingAged(s, i, n - 1);
    }
  }

  /** Slots that are not in use do not age. */
  lemma {:induction false} NothingToAge(s: Snoop, i: nat)
    requires WellFormed(s) && i <= |s.db| && forall j :: i <= j < |s.db| ==> !IsValid(s.db[j].gda)
    ensures AgeFrom(s, i) == s
    decreases |s.db| - i
  {
    if i == |s.db| {
    } else {
      NothingToAge(s, i + 1);
    }
  }

  // ---------- the database stays sound ----------

  /** What reports carry: a class D address and a 12-bit VLAN id. */
  predicate Reportable(vid: nat, gda: Word) {
    IsMulticast(gda) && vid < VID_LIMIT
  }

  lemma AddToListsKeepsInv(s: Snoop, i: nat, ports: PortSet)
    requires DbInv(s) && i < |s.db|
    ensures DbInv(AddToLists(s, i, ports))
  {
  }

  /** The slot the search finds is the group's. */
  lemma FoundIsGroup(s: Snoop, vid: nat, gda: Word)
    requires DbInv(s) && Reportable(vid, gda) && Find(s.db, vid, gda, 0) < |s.db|
    ensures
      var e := s.db[Find(s.db, vid, gda, 0)];
      IsValid(e.gda) && IdOf(e) == GroupId(vid, Address(gda)) && L2KeyOf(e) == L2Key(vid, ComposeMac(gda))
  {
    FindsNamed(s, Leave(gda, vid, 0, 1));
  }

  /** A group the search does not find is none of those there. */
  lemma NotFoundIsNew(s: Snoop, vid: nat, gda: Word, j: nat)
    requires DbInv(s) && Reportable(vid, gda) && Find(s.db, vid, gda, 0) == |s.db|
    requires j < |s.db| && IsValid(s.db[j].gda)
    ensures IdOf(s.db[j]) != GroupId(vid, Address(gda))
  {
    assert !Names(s.db[j], vid, gda);
  }

  lemma EnterKeepsInv(s: Snoop, i: nat, vid: nat, gda: Word, ports: PortSet)
    requires DbInv(s) && Reportable(vid, gda) && Find(s.db, vid, gda, 0) == |s.db| && i < |s.db|
    ensures DbInv(Enter(s, i, vid, gda, ports))
    ensures
      var e := Enter(s, i, vid, gda, ports).db[i];
      IsValid(e.gda) && IdOf(e) == GroupId(vid, Address(gda)) && L2KeyOf(e) == L2Key(vid, ComposeMac(gda))
  {
    var t := Enter(s, i, vid, gda, ports);
    AddressFacts(gda);
    AddressFacts(Address(gda));
    MacIsLow23(Address(gda), gda);
    forall j | 0 <= j < |s.db| && j != i && IsValid(s.db[j].gda) ensures IdOf(s.db[j]) != IdOf(t.db[i]) {
      NotFoundIsNew(s, vid, gda, j);
    }
  }

  lemma RejoinKeepsInv(s: Snoop, i: nat, ports: PortSet)
    requires DbInv(s) && i < |s.db|
    ensures DbInv(Rejoin(s, i, ports))
  {
    var j := if IsPioneer(s.db[i].gda) then i else PioneerPalOf(s.db, i, 0);
    var t := if j < |s.db| then AddToEntry(s, j, ports) else s;
    assert DbInv(t);
    AddToListsKeepsInv(t, i, ports);
  }

  /** A report keeps groups distinct and age bits within the lists, whether the group is new, known or refused. */
  lemma UpdateKeepsInv(s: Snoop, vid: nat, gda: Word, ports: PortSet, room: bool)
    requires DbInv(s) && Reportable(vid, gda)
    ensures DbInv(Update(s, vid, gda, ports, room).0)
  {
    var i := Find(s.db, vid, gda, 0);
    if i < |s.db| {
      RejoinKeepsInv(s, i, ports);
    } else {
      var n := NewSlot(s.db, 0);
      if n < |s.db| {
        if room {
          EnterKeepsInv(s, n, vid, gda, ports);
          AddToListsKeepsInv(Enter(s, n, vid, gda, ports), n, ports);
        } else {
          assert !IsValid(0);
        }
      }
    }
  }

  lemma AgeSlotKeepsInv(s: Snoop, i: nat)
    requires DbInv(s) && i < |s.db|
    ensures DbInv(AgeSlot(s, i))
  {
    if IsValid(s.db[i].gda) {
      var c := if IsPioneer(s.db[i].gda) then Cast(s, i, AgeSummary(s, i, |s.db|)) else s;
      assert DbInv(c);
      var pal := FirstPal(s.db, i, 0);
      if s.lists[i].age != {} {
      } else if IsPioneer(s.db[i].gda) && pal < |s.db| {
        TakeOverKeepsInv(c, i, pal);
      } else {
        EraseKeepsInv(c, i);
      }
    }
  }

  lemma {:induction false} AgeFromKeepsInv(s: Snoop, i: nat)
    requires DbInv(s) && i <= |s.db|
    ensures DbInv(AgeFrom(s, i))
    decreases |s.db| - i
  {
    if i == |s.db| {
    } else {
      AgeSlotKeepsInv(s, i);
      AgeFromKeepsInv(AgeSlot(s, i), i + 1);
    }
  }

  // ---------- slots that are not in use ----------

  /** A slot that is not in use has empty lists. */
  predicate Tidy(s: Snoop) {
    WellFormed(s) && forall j :: 0 <= j < |s.db| && !IsValid(s.db[j].gda) ==> s.lists[j] == PortLists({}, {})
  }

  lemma EraseKeepsTidy(s: Snoop, e: nat)
    requires Tidy(s) && e < |s.db|
    ensures Tidy(Erase(s, e))
  {
  }

  lemma TakeOverKeepsTidy(s: Snoop, e: nat, pal: nat)
    requires Tidy(s) && e < |s.db| && pal < |s.db| && pal != e
    ensures Tidy(TakeOver(s, e, pal))
  {
    AddressFacts(s.db[pal].gda);
  }

  lemma ExpireKeepsTidy(s: Snoop, i: nat, u: int)
    requires Tidy(s) && i < |s.db|
    ensures Tidy(Expire(s, i, u))
  {
    var t := StrikePort(s, i, u);
    assert Tidy(t) by {
      assert t.db == s.db;
      assert forall j :: 0 <= j < |s.db| && j != i ==> t.lists[j] == s.lists[j];
    }
    if t.lists[i].uplist == {} {
      if IsValid(t.db[i].gda) && IsPioneer(t.db[i].gda) {
        var c := Cast(t, i, Summary(t, i, |t.db|));
        assert Tidy(c);
        if FirstPal(t.db, i, 0) < |t.db| {
          TakeOverKeepsTidy(c, i, FirstPal(t.db, i, 0));
        } else {
          EraseKeepsTidy(c, i);
        }
      } else {
        EraseKeepsTidy(t, i);
      }
    }
  }

  lemma {:induction false} TickKeepsTidy(s: Snoop, q: seq<Leave>, k: nat, started: bool)
    requires Tidy(s) && k <= |q| && Queued(q)
    ensures Tidy(Tick(s, q, k, started).snoop)
    decreases |q| - k
  {
    if k == |q| {
    } else {
      TickAfterRecord(s, q, k, started);
      if ExpiresAt(q, k) && Known(s, q[k]) {
        ExpireKeepsTidy(s, Find(s.db, q[k].vid, q[k].gda, 0), q[k].uport);
      }
      TickKeepsTidy(AfterRecord(s, q, k), q, k + 1, true);
    }
  }

  lemma UpdateKeepsTidy(s: Snoop, vid: nat, gda: Word, ports: PortSet, room: bool)
    requires Tidy(s) && DbInv(s) && Reportable(vid, gda)
    ensures Tidy(Update(s, vid, gda, ports, room).0)
  {
    var i := Find(s.db, vid, gda, 0);
    if i < |s.db| {
      FoundIsGroup(s, vid, gda);
    } else {
      var n := NewSlot(s.db, 0);
      if n < |s.db| && room {
        EnterKeepsInv(s, n, vid, gda, ports);
      }
    }
  }

  lemma AgeSlotKeepsTidy(s: Snoop, i: nat)
    requires Tidy(s) && i < |s.db|
    ensures Tidy(AgeSlot(s, i))
  {
    if IsValid(s.db[i].gda) {
      var c := if IsPioneer(s.db[i].gda) then Cast(s, i, AgeSummary(s, i, |s.db|)) else s;
      assert Tidy(c);
      var pal := FirstPal(s.db, i, 0);
      if s.lists[i].age != {} {
      } else if IsPioneer(s.db[i].gda) && pal < |s.db| {
        TakeOverKeepsTidy(c, i, pal);
        AddressFacts(s.db[pal].gda);
      } else {
        EraseKeepsTidy(c, i);
      }
    }
  }

  lemma {:induction false} AgeFromKeepsTidy(s: Snoop, i: nat)
    requires Tidy(s) && i <= |s.db|
    ensures Tidy(AgeFrom(s, i))
    decreases |s.db| - i
  {
    if i == |s.db| {
    } else {
      AgeSlotKeepsTidy(s, i);
      AgeFromKeepsTidy(AgeSlot(s, i), i + 1);
    }
  }

  // ---------- what a report does to groups and entries ----------

  function Joining(vid: nat, gda: Word, ports: PortSet, key: L2Key, p: int): set<GroupId> {
    if key == L2Key(vid, ComposeMac(gda)) && p in ports then {GroupId(vid, Address(gda))} else {}
  }

  lemma AddToListsView(s: Snoop, i: nat, ports: PortSet, aged: bool, key: L2Key, p: int)
    requires DbInv(s) && i < |s.db| && IsValid(s.db[i].gda)
    ensures Users(AddToLists(s, i, ports), aged, key, p) ==
            Users(s, aged, key, p) + if key == L2KeyOf(s.db[i]) && p in ports then {IdOf(s.db[i])} else {}
  {
    var t := AddToLists(s, i, ports);
    forall id | id in Users(t, aged, key, p)
      ensures id in Users(s, aged, key, p) || (key == L2KeyOf(s.db[i]) && p in ports && id == IdOf(s.db[i]))
    {
      var j :| 0 <= j < |t.db| && UsesAt(t, aged, j, key, p) && IdOf(t.db[j]) == id;
      assert UsesAt(s, aged, j, key, p) || j == i;
    }
    forall id | id in Users(s, aged, key, p) ensures id in Users(t, aged, key, p) {
      var j :| 0 <= j < |s.db| && UsesAt(s, aged, j, key, p) && IdOf(s.db[j]) == id;
      assert UsesAt(t, aged, j, key, p);
    }
    if key == L2KeyOf(s.db[i]) && p in ports {
      assert UsesAt(t, aged, i, key, p);
    }
  }

  lemma EnterView(s: Snoop, i: nat, vid: nat, gda: Word, ports: PortSet, aged: bool, key: L2Key, p: int)
    requires DbInv(s) && Tidy(s) && Reportable(vid, gda) && Find(s.db, vid, gda, 0) == |s.db|
    requires i < |s.db| && !IsValid(s.db[i].gda)
    ensures Users(Enter(s, i, vid, gda, ports), aged, key, p) == Users(s, aged, key, p)
  {
    CarriedOver(s, Enter(s, i, vid, gda, ports), aged, key, p, {}, 0, 0);
    CarriedOver(Enter(s, i, vid, gda, ports), s, aged, key, p, {}, 0, 0);
  }

  /** The report entered its port: the group was known, or there was a slot and an entry for it. */
  predicate Accepted(s: Snoop, vid: nat, gda: Word, room: bool)
    requires WellFormed(s)
  {
    Find(s.db, vid, gda, 0) < |s.db| || (NewSlot(s.db, 0) < |s.db| && room)
  }

  lemma SameDbSameUsers(s: Snoop, t: Snoop, aged: bool, key: L2Key, p: int)
    requires WellFormed(s) && WellFormed(t) && t.db == s.db && t.lists == s.lists
    ensures Users(t, aged, key, p) == Users(s, aged, key, p)
  {
    CarriedOver(s, t, aged, key, p, {}, 0, 0);
    CarriedOver(t, s, aged, key, p, {}, 0, 0);
  }

  lemma RejoinView(s: Snoop, i: nat, ports: PortSet, aged: bool, key: L2Key, p: int)
    requires DbInv(s) && i < |s.db| && IsValid(s.db[i].gda)
    ensures Users(Rejoin(s, i, ports), aged, key, p) ==
            Users(s, aged, key, p) + if key == L2KeyOf(s.db[i]) && p in ports then {IdOf(s.db[i])} else {}
  {
    var j := if IsPioneer(s.db[i].gda) then i else PioneerPalOf(s.db, i, 0);
    var t := if j < |s.db| then AddToEntry(s, j, ports) else s;
    SameDbSameUsers(s, t, aged, key, p);
    AddToListsView(t, i, ports, aged, key, p);
  }

  lemma NewGroupView(s: Snoop, n: nat, vid: nat, gda: Word, ports: PortSet, aged: bool, key: L2Key, p: int)
    requires DbInv(s) && Tidy(s) && Reportable(vid, gda) && Find(s.db, vid, gda, 0) == |s.db|
    requires n < |s.db| && !IsValid(s.db[n].gda)
    ensures Users(AddToLists(Enter(s, n, vid, gda, ports), n, ports), aged, key, p) ==
            Users(s, aged, key, p) + Joining(vid, gda, ports, key, p)
  {
    EnterKeepsInv(s, n, vid, gda, ports);
    EnterView(s, n, vid, gda, ports, aged, key, p);
    AddToListsView(Enter(s, n, vid, gda, ports), n, ports, aged, key, p);
  }

  lemma RefusedView(s: Snoop, n: nat, aged: bool, key: L2Key, p: int)
    requires DbInv(s) && n < |s.db| && !IsValid(s.db[n].gda)
    ensures Users(s.(db := s.db[n := s.db[n].(gda := 0)]), aged, key, p) == Users(s, aged, key, p)
  {
    var t := s.(db := s.db[n := s.db[n].(gda := 0)]);
    assert !IsValid(0);
    CarriedOver(s, t, aged, key, p, {}, 0, 0);
    CarriedOver(t, s, aged, key, p, {}, 0, 0);
  }

  /**
   A report is refused if no slot names its group, and every slot is in use or the multicast
   table is full. It then changes no slot in use, no lists and no entry; if the table was full,
   the first slot that is not in use loses its address.
   */
  lemma RefusedMeans(s: Snoop, vid: nat, gda: Word, ports: PortSet, room: bool)
    requires WellFormed(s)
    ensures
      var (r, ok) := Update(s, vid, gda, ports, room);
      !ok <==> (forall j :: 0 <= j < |s.db| ==> !Names(s.db[j], vid, gda)) &&
               (!room || forall j :: 0 <= j < |s.db| ==> IsValid(s.db[j].gda))
    ensures
      var (r, ok) := Update(s, vid, gda, ports, room);
      !ok ==> r.l2 == s.l2 && r.lists == s.lists && forall j :: 0 <= j < |s.db| ==>
        r.db[j] == if IsValid(s.db[j].gda) || exists h :: 0 <= h < j && !IsValid(s.db[h].gda) then s.db[j]
                   else s.db[j].(gda := 0)
  {
    var i, n := Find(s.db, vid, gda, 0), NewSlot(s.db, 0);
    assert n < |s.db| ==> !IsValid(s.db[n].gda);
  }

  lemma KnownView(s: Snoop, vid: nat, gda: Word, ports: PortSet, aged: bool, key: L2Key, p: int)
    requires DbInv(s) && Reportable(vid, gda) && Find(s.db, vid, gda, 0) < |s.db|
    ensures Users(Rejoin(s, Find(s.db, vid, gda, 0), ports), aged, key, p) ==
            Users(s, aged, key, p) + Joining(vid, gda, ports, key, p)
  {
    FoundIsGroup(s, vid, gda);
    RejoinView(s, Find(s.db, vid, gda, 0), ports, aged, key, p);
  }

  /** An accepted report adds its ports to this one group, with their age bits, and to no other. */
  lemma UpdateView(s: Snoop, vid: nat, gda: Word, ports: PortSet, room: bool, aged: bool, key: L2Key, p: int)
    requires DbInv(s) && Tidy(s) && Reportable(vid, gda)
    ensures Update(s, vid, gda, ports, room).1 == Accepted(s, vid, gda, room)
    ensures Users(Update(s, vid, gda, ports, room).0, aged, key, p) ==
            Users(s, aged, key, p) + if Accepted(s, vid, gda, room) then Joining(vid, gda, ports, key, p) else {}
  {
    var i, n := Find(s.db, vid, gda, 0), NewSlot(s.db, 0);
    if i < |s.db| {
      KnownView(s, vid, gda, ports, aged, key, p);
    } else if n < |s.db| && room {
      NewGroupView(s, n, vid, gda, ports, aged, key, p);
    } else if n < |s.db| {
      RefusedView(s, n, aged, key, p);
    }
  }

  /** The entry that a report of a known group writes to is there: its own, or its pioneer's. */
  predicate EntryReached(s: Snoop, vid: nat, gda: Word)
    requires WellFormed(s) && Find(s.db, vid, gda, 0) < |s.db|
  {
    var i := Find(s.db, vid, gda, 0);
    L2Key(vid, ComposeMac(gda)) in s.l2 && (IsPioneer(s.db[i].gda) || PioneerPalOf(s.db, i, 0) < |s.db|)
  }

  lemma RejoinL2(s: Snoop, i: nat, ports: PortSet, key: L2Key, p: int)
    requires DbInv(s) && i < |s.db| && IsValid(s.db[i].gda)
    ensures
      var reached := L2KeyOf(s.db[i]) in s.l2 && (IsPioneer(s.db[i].gda) || PioneerPalOf(s.db, i, 0) < |s.db|);
      InL2(Rejoin(s, i, ports), key, p) <==> InL2(s, key, p) || (key == L2KeyOf(s.db[i]) && p in ports && reached)
  {
    var j := if IsPioneer(s.db[i].gda) then i else PioneerPalOf(s.db, i, 0);
    if j < |s.db| {
      PalsShareKey(s.db[i], s.db[j]);
    }
  }

  lemma NewGroupL2(s: Snoop, n: nat, vid: nat, gda: Word, ports: PortSet, key: L2Key, p: int)
    requires WellFormed(s) && n < |s.db| && !RouterPort(s, key.vid, p)
    ensures InL2(AddToLists(Enter(s, n, vid, gda, ports), n, ports), key, p) <==>
            if key == L2Key(vid, ComposeMac(gda)) then p in ports else InL2(s, key, p)
  {
    ShorterScan(s.routers, vid, 0, s.vlanCount);
  }

  lemma KnownL2(s: Snoop, vid: nat, gda: Word, ports: PortSet, key: L2Key, p: int)
    requires DbInv(s) && Reportable(vid, gda) && Find(s.db, vid, gda, 0) < |s.db|
    ensures InL2(Rejoin(s, Find(s.db, vid, gda, 0), ports), key, p) <==>
            InL2(s, key, p) || (key == L2Key(vid, ComposeMac(gda)) && p in ports && EntryReached(s, vid, gda))
  {
    FoundIsGroup(s, vid, gda);
    RejoinL2(s, Find(s.db, vid, gda, 0), ports, key, p);
  }

  /** What a report does to one port of one layer-2 entry. */
  lemma UpdateL2(s: Snoop, vid: nat, gda: Word, ports: PortSet, room: bool, key: L2Key, p: int)
    requires DbInv(s) && Reportable(vid, gda) && !RouterPort(s, key.vid, p)
    ensures
      InL2(Update(s, vid, gda, ports, room).0, key, p) <==>
      if key != L2Key(vid, ComposeMac(gda)) || !Accepted(s, vid, gda, room) then InL2(s, key, p)
      else if Find(s.db, vid, gda, 0) < |s.db| then InL2(s, key, p) || (p in ports && EntryReached(s, vid, gda))
      else p in ports
  {
    var i, n := Find(s.db, vid, gda, 0), NewSlot(s.db, 0);
    if i < |s.db| {
      KnownL2(s, vid, gda, ports, key, p);
    } else if n < |s.db| && room {
      NewGroupL2(s, n, vid, gda, ports, key, p);
    }
  }

  /**
   Entries and groups that agree still agree after a report if and only if it is refused or
   for another entry, or the group was known and its entry is reached or holds the port, or
   the group is new and no group of the entry had another port: a new group's entry
   replaces the one its pals shared.
   */
  lemma ReportKeepsL2Exactly(s: Snoop, vid: nat, gda: Word, ports: PortSet, room: bool, key: L2Key, p: int)
    requires DbInv(s) && Tidy(s) && Reportable(vid, gda) && !RouterPort(s, key.vid, p) && Agrees(s, key, p)
    ensures
      Agrees(Update(s, vid, gda, ports, room).0, key, p) <==>
      key != L2Key(vid, ComposeMac(gda)) || !Accepted(s, vid, gda, room) ||
      if Find(s.db, vid, gda, 0) < |s.db| then p !in ports || InL2(s, key, p) || EntryReached(s, vid, gda)
      else p in ports || Holders(s, key, p) == {}
  {
    UpdateView(s, vid, gda, ports, room, false, key, p);
    UpdateL2(s, vid, gda, ports, room, key, p);
  }
}
