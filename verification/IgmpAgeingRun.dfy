/**
 A run of IGMP snooping in which a group that has just reported is left without a port: its
 pioneer stands in a later slot and is silent, so the group is aged twice.
 */
module IgmpAgeingRun {
  import opened Uplists
  import opened Words
  import opened IgmpGroups
  import opened IgmpReports
  import opened IgmpPioneers
  import opened IgmpAgeing
  import opened IgmpRuns

  /** A group of VLAN 1 with another MAC address. */
  const THIRD: Word := 0xE100_0002

  function ThirdKey(): L2Key {
    L2Key(1, ComposeMac(THIRD))
  }

  lemma OtherMac()
    ensures ThirdKey() != SharedKey()
  {
    MacIsLow23(FIRST, THIRD);
  }

  /** It stands in slot 0, with port 1. */
  function ThirdAlone(age: set<int>, entry: PortSet): Snoop {
    TwoSlots(DbEntry(THIRD, 1), DbEntry(0, 0), PortLists(age, {1}), PortLists({}, {}), map[ThirdKey() := entry])
  }

  lemma ThirdReports()
    requires 1 in ALL_PORTS
    ensures Update(NoGroups(), 1, THIRD, {1}, true).0 == ThirdAlone({1}, {1})
  {
    var s, t := NoGroups(), ThirdAlone({1}, {1});
    assert Find(s.db, 1, THIRD, 0) == |s.db|;
    assert NewSlot(s.db, 0) == 0;
    var db := s.db[0 := DbEntry(THIRD, 1)];
    assert AnyPal(db, 0, 0) == |db|;
    assert {1} + RouterPorts(s.routers, 1, 0, 0) * ALL_PORTS == {1};
    var none: set<int> := {};
    assert none + {1} == {1};
    assert db == t.db && s.lists[0 := PortLists({1}, {1})] == t.lists;
  }

  lemma ThirdAges()
    requires 1 in ALL_PORTS
    ensures AgeFrom(ThirdAlone({1}, {1}), 0) == ThirdAlone({}, {1})
  {
    var s, t := ThirdAlone({1}, {1}), ThirdAlone({}, {1});
    var entry: PortSet := {1};
    AgedPartCounts(s, 0, |s.db|, 0);
    assert 1 in AgedPart(s, 0, 0);
    assert entry * AgeSummary(s, 0, |s.db|) == entry;
    assert AgeSlot(s, 0) == t by {
      assert s.l2[ThirdKey() := entry] == t.l2 && s.lists[0 := PortLists({}, {1})] == t.lists;
    }
    assert !IsValid(0);
    NothingToAge(t, 1);
  }

  function ThirdAndFirst(): Snoop
    requires 1 in ALL_PORTS
  {
    TwoSlots(DbEntry(THIRD, 1), DbEntry(FIRST, 1), PortLists({}, {1}), PortLists({1}, {1}),
             map[ThirdKey() := {1}, SharedKey() := {1}])
  }

  lemma FirstJoins()
    requires 1 in ALL_PORTS
    ensures Update(ThirdAlone({}, {1}), 1, FIRST, {1}, true).0 == ThirdAndFirst()
  {
    var s, t := ThirdAlone({}, {1}), ThirdAndFirst();
    OtherMac();
    assert Find(s.db, 1, FIRST, 0) == |s.db|;
    assert NewSlot(s.db, 0) == 1;
    var db := s.db[1 := DbEntry(FIRST, 1)];
    assert AnyPal(db, 1, 0) == |db|;
    assert {1} + RouterPorts(s.routers, 1, 0, 0) * ALL_PORTS == {1};
    var none: set<int> := {};
    assert none + {1} == {1};
    assert db == t.db && s.lists[1 := PortLists({1}, {1})] == t.lists && s.l2[SharedKey() := {1}] == t.l2;
  }

  /** Slot 0 is free again, and the group in slot 1 was aged. */
  function FirstAlone(): Snoop
    requires 1 in ALL_PORTS
  {
    TwoSlots(DbEntry(0, 1), DbEntry(FIRST, 1), PortLists({}, {}), PortLists({}, {1}), map[SharedKey() := {1}])
  }

  lemma ThirdHasNoPal()
    requires 1 in ALL_PORTS
    ensures FirstPal(ThirdAndFirst().db, 0, 0) == |ThirdAndFirst().db|
  {
    assert !IsValid(0);
  }

  lemma ThirdGoes()
    requires 1 in ALL_PORTS
    ensures
      AgeSlot(ThirdAndFirst(), 0) ==
      TwoSlots(DbEntry(0, 1), DbEntry(FIRST, 1), PortLists({}, {}), PortLists({1}, {1}), map[SharedKey() := {1}])
  {
    var s := ThirdAndFirst();
    var t := TwoSlots(DbEntry(0, 1), DbEntry(FIRST, 1), PortLists({}, {}), PortLists({1}, {1}),
                      map[SharedKey() := {1}]);
    OtherMac();
    ThirdHasNoPal();
    assert s.db[0 := DbEntry(0, 1)] == t.db && s.lists[0 := PortLists({}, {})] == t.lists;
    assert Cast(s, 0, AgeSummary(s, 0, |s.db|)).l2 - {ThirdKey()} == t.l2;
  }

  lemma FirstAges()
    requires 1 in ALL_PORTS
    ensures
      AgeSlot(TwoSlots(DbEntry(0, 1), DbEntry(FIRST, 1), PortLists({}, {}), PortLists({1}, {1}),
                       map[SharedKey() := {1}]), 1) == FirstAlone()
  {
    var s := TwoSlots(DbEntry(0, 1), DbEntry(FIRST, 1), PortLists({}, {}), PortLists({1}, {1}),
                      map[SharedKey() := {1}]);
    var t := FirstAlone();
    var entry: PortSet := {1};
    AgedPartCounts(s, 1, |s.db|, 1);
    assert 1 in AgedPart(s, 1, 1);
    assert entry * AgeSummary(s, 1, |s.db|) == entry;
    assert s.l2[SharedKey() := entry] == t.l2 && s.lists[1 := PortLists({}, {1})] == t.lists;
  }

  lemma ThirdGoesFirstAges()
    requires 1 in ALL_PORTS
    ensures AgeFrom(ThirdAndFirst(), 0) == FirstAlone()
  {
    ThirdGoes();
    FirstAges();
    var s, t := AgeSlot(ThirdAndFirst(), 0), FirstAlone();
    assert !IsValid(0);
    NothingToAge(t, 2);
    assert AgeFrom(s, 1) == AgeFrom(t, 2);
  }

  /** The second group in slot 0 follows the first one in slot 1; only the second has its age bit. */
  function FollowerFirst(): Snoop
    requires 1 in ALL_PORTS
  {
    TwoSlots(DbEntry(Address(SECOND), 1), DbEntry(FIRST, 1), PortLists({1}, {1}), PortLists({}, {1}),
             map[SharedKey() := {1}])
  }

  lemma SecondJoins()
    requires 1 in ALL_PORTS
    ensures Update(FirstAlone(), 1, SECOND, {1}, true).0 == FollowerFirst()
  {
    var s, t := FirstAlone(), FollowerFirst();
    SameMac();
    assert !IsValid(0);
    assert Find(s.db, 1, SECOND, 0) == |s.db|;
    assert NewSlot(s.db, 0) == 0;
    var db := s.db[0 := DbEntry(SECOND, 1)];
    assert PalSlots(db, 0, 1);
    assert {1} + RouterPorts(s.routers, 1, 0, 0) * ALL_PORTS == {1};
    var none: set<int> := {};
    assert none + {1} == {1};
    assert db[0 := DbEntry(Address(SECOND), 1)] == t.db && s.lists[0 := PortLists({1}, {1})] == t.lists;
    assert s.l2[SharedKey() := {1}] == t.l2;
  }

  lemma FollowerFirstIsServed()
    requires 1 in ALL_PORTS
    ensures DbInv(FollowerFirst()) && Served(FollowerFirst()) && PioneerAt(FollowerFirst(), 1, SharedKey())
    ensures L2KeyOf(FollowerFirst().db[0]) == SharedKey()
  {
    var s, key := FollowerFirst(), SharedKey();
    AddressFacts(SECOND);
    MacIsLow23(FIRST, Address(SECOND));
    assert !IsValid(0);
    assert L2KeyOf(s.db[0]) == L2KeyOf(s.db[1]) == key;
    assert PioneerAt(s, 1, key);
    forall j, k | PioneerAt(s, j, k) ensures j == 1 {
    }
    forall j | GroupAt(s, j) ensures ServedAt(s, j) {
      assert L2KeyOf(s.db[j]) == key;
    }
  }

  lemma SecondIsActive()
    requires 1 in ALL_PORTS
    ensures Users(FollowerFirst(), true, SharedKey(), 1) == {GroupId(1, Address(SECOND))}
    ensures InL2(FollowerFirst(), SharedKey(), 1) && !Scanned(FollowerFirst(), 1, 1)
  {
    var s, key := FollowerFirst(), SharedKey();
    FollowerFirstIsServed();
    AddressFacts(SECOND);
    assert !IsValid(0);
    forall j ensures UsesAt(s, true, j, key, 1) <==> j == 0 {
    }
    TwoUsers(s, true, key, 1);
  }

  lemma AgedThirdIsReached() returns (n: Net)
    requires 1 in ALL_PORTS
    ensures Reachable(n) && n == Net(ThirdAlone({}, {1}), [])
  {
    n := Net(NoGroups(), []);
    assert IsNetRun([n], []);
    ThirdReports();
    n := EventReachable(n, ReportIn(1, THIRD, 1, false, false, true));
    ThirdAges();
    n := EventReachable(n, SecondOver(true));
  }

  /** Two ageings and three reports from the empty database. */
  lemma FollowerFirstIsReached() returns (n: Net)
    requires 1 in ALL_PORTS
    ensures Reachable(n) && n == Net(FollowerFirst(), [])
  {
    n := AgedThirdIsReached();
    FirstJoins();
    n := EventReachable(n, ReportIn(1, FIRST, 1, false, false, true));
    ThirdGoesFirstAges();
    n := EventReachable(n, SecondOver(true));
    SecondJoins();
    n := EventReachable(n, ReportIn(1, SECOND, 1, false, false, true));
  }

  lemma SecondIsStranded()
    requires 1 in ALL_PORTS
    ensures GroupId(1, Address(SECOND)) in Stranded(FollowerFirst(), SharedKey())
  {
    var s, key, second := FollowerFirst(), SharedKey(), GroupId(1, Address(SECOND));
    FollowerFirstIsServed();
    assert IdOf(s.db[0]) == second;
    assert StaysAt(s, 0, 0, key);
    StrandedMeans(s, key, second);
  }

  lemma FollowerFirstStrands()
    requires 1 in ALL_PORTS
    ensures
      var (s, key) := (FollowerFirst(), SharedKey());
      Agrees(s, key, 1) && Actives(s, key, 1) == {GroupId(1, Address(SECOND))} &&
      InL2(AgeFrom(s, 0), key, 1) && Holders(AgeFrom(s, 0), key, 1) == {}
  {
    var s, key, second := FollowerFirst(), SharedKey(), GroupId(1, Address(SECOND));
    FollowerFirstIsServed();
    SecondIsActive();
    assert UsesAt(s, false, 0, key, 1) && IdOf(s.db[0]) == second;
    assert second in Holders(s, key, 1);
    SecondIsStranded();
    AgeView(s, key, 1);
    AgeL2(s, key, 1);
  }

  /** The group that has just reported loses its port in the ageing, and the entry keeps it. */
  lemma AgeingStrandsGroup() returns (n: Net)
    requires 1 in ALL_PORTS
    ensures Reachable(n) && WellFormed(n.groups) && n.queue == [] && Agrees(n.groups, SharedKey(), 1)
    ensures Actives(n.groups, SharedKey(), 1) == {GroupId(1, Address(SECOND))}
    ensures Reachable(NextNet(n, SecondOver(true))) && InL2(NextNet(n, SecondOver(true)).groups, SharedKey(), 1)
    ensures Holders(NextNet(n, SecondOver(true)).groups, SharedKey(), 1) == {}
  {
    n := FollowerFirstIsReached();
    FollowerFirstStrands();
    var m := EventReachable(n, SecondOver(true));
  }
}
