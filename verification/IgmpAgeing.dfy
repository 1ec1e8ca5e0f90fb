/**
 What the ageing of IGMP snooping does to the groups of one layer-2 entry: who still has a
 port, and when entry and groups agree afterwards.
 */
module IgmpAgeing {
  import opened Uplists
  import opened Words
  import opened IgmpGroups
  import opened IgmpReports
  import opened IgmpPioneers

  predicate OnEntry(s: Snoop, j: int, k: L2Key) {
    GroupAt(s, j) && L2KeyOf(s.db[j]) == k
  }

  /** With the walk at slot i, group j keeps the port: its list if it was aged already, else its age bits. */
  predicate CountsAt(s: Snoop, i: nat, j: int, k: L2Key, p: int) {
    UsesAt(s, j >= i, j, k, p)
  }

  function Counting(s: Snoop, i: nat, k: L2Key, p: int): set<GroupId> {
    set j | 0 <= j < |s.db| && CountsAt(s, i, j, k, p) :: IdOf(s.db[j])
  }

  /** The groups of the entry before slot i are aged. */
  ghost predicate AgedBelow(s: Snoop, i: nat, k: L2Key)
    requires WellFormed(s)
  {
    forall j {:trigger OnEntry(s, j, k)} :: 0 <= j < i && OnEntry(s, j, k) ==> s.lists[j].age == {}
  }

  // ---------- the group that is aged twice ----------

  /** With the walk at slot i, group j will still be there when a later slot of its entry is visited. */
  predicate StaysAt(s: Snoop, i: nat, j: nat, k: L2Key)
    requires WellFormed(s)
  {
    OnEntry(s, j, k) && (j < i || s.lists[j].age != {})
  }

  /** The first of them from slot h on, before slot e. */
  function FirstStaying(s: Snoop, i: nat, e: nat, h: nat, k: L2Key): (j: nat)
    requires WellFormed(s) && h <= e
    ensures h <= j <= e && (j < e ==> StaysAt(s, i, j, k))
    ensures forall g :: h <= g < j ==> !StaysAt(s, i, g, k)
    decreases e - h
  {
    if h == e || StaysAt(s, i, h, k) then h else FirstStaying(s, i, e, h + 1, k)
  }

  /** The pal before a silent pioneer in slot e that takes over from it: aged already, it is aged again. */
  function TwiceAged(s: Snoop, i: nat, e: nat, k: L2Key): set<GroupId>
    requires WellFormed(s) && e < |s.db|
  {
    var j := FirstStaying(s, i, e, 0, k);
    if s.lists[e].age == {} && j < e then {IdOf(s.db[j])} else {}
  }

  lemma {:induction false} SameStaying(s: Snoop, t: Snoop, i: nat, e: nat, h: nat, k: L2Key)
    requires WellFormed(s) && WellFormed(t) && h <= e
    requires forall j :: h <= j < e ==> (StaysAt(s, i, j, k) <==> StaysAt(t, i + 1, j, k))
    ensures FirstStaying(s, i, e, h, k) == FirstStaying(t, i + 1, e, h, k)
    decreases e - h
  {
    if h == e {
    } else {
      SameStaying(s, t, i, e, h + 1, k);
    }
  }

  // ---------- a slot that is not the entry's pioneer ----------

  /** Of entry k the visit of slot i ages the group there, or removes it, and touches no other. */
  predicate AgedSlot(s: Snoop, t: Snoop, i: nat, j: nat, k: L2Key)
    requires WellFormed(s) && WellFormed(t) && i < |s.db| == |t.db| && j < |s.db|
  {
    (OnEntry(t, j, k) <==> OnEntry(s, j, k) && !(j == i && s.lists[i].age == {})) &&
    (OnEntry(t, j, k) ==>
      t.db[j] == s.db[j] && t.lists[j] == if j == i then PortLists({}, s.lists[i].age) else s.lists[j])
  }

  ghost predicate AgedAt(s: Snoop, t: Snoop, i: nat, k: L2Key) {
    WellFormed(s) && WellFormed(t) && i < |s.db| == |t.db| &&
    forall j {:trigger AgedSlot(s, t, i, j, k)} :: 0 <= j < |s.db| ==> AgedSlot(s, t, i, j, k)
  }

  predicate SameEntry(s: Snoop, t: Snoop, k: L2Key) {
    (k in t.l2 <==> k in s.l2) && (k in s.l2 ==> t.l2[k] == s.l2[k])
  }

  lemma OtherTakenOver(s: Snoop, i: nat, pal: nat, k: L2Key)
    requires DbInv(s) && GroupAt(s, i) && L2KeyOf(s.db[i]) != k && ValidPal(s.db, i, pal)
    ensures AgedAt(s, AgeLists(TakeOver(s, i, pal), i), i, k)
    ensures SameEntry(s, AgeLists(TakeOver(s, i, pal), i), k)
  {
    var t := AgeLists(TakeOver(s, i, pal), i);
    PalsShareKey(s.db[i], s.db[pal]);
    AddressFacts(s.db[pal].gda);
    MacIsLow23(t.db[i].gda, s.db[pal].gda);
    assert !IsValid(0);
    forall j {:trigger AgedSlot(s, t, i, j, k)} | 0 <= j < |s.db| ensures AgedSlot(s, t, i, j, k) {
    }
  }

  lemma SilentErased(s: Snoop, i: nat, k: L2Key)
    requires DbInv(s) && GroupAt(s, i) && s.lists[i].age == {}
    ensures AgedAt(s, Erase(s, i), i, k)
    ensures !PioneerAt(s, i, k) ==> SameEntry(s, Erase(s, i), k)
  {
    var t := Erase(s, i);
    assert !IsValid(0);
    forall j {:trigger AgedSlot(s, t, i, j, k)} | 0 <= j < |s.db| ensures AgedSlot(s, t, i, j, k) {
    }
  }

  lemma ListsAged(s: Snoop, i: nat, k: L2Key)
    requires DbInv(s) && GroupAt(s, i) && s.lists[i].age != {}
    ensures AgedAt(s, AgeLists(s, i), i, k)
  {
    var t := AgeLists(s, i);
    forall j {:trigger AgedSlot(s, t, i, j, k)} | 0 <= j < |s.db| ensures AgedSlot(s, t, i, j, k) {
    }
  }

  lemma CastBefore(s: Snoop, c: Snoop, t: Snoop, i: nat, k: L2Key)
    requires AgedAt(c, t, i, k) && WellFormed(s) && c.db == s.db && c.lists == s.lists
    ensures AgedAt(s, t, i, k)
  {
    forall j {:trigger AgedSlot(s, t, i, j, k)} | 0 <= j < |s.db| ensures AgedSlot(s, t, i, j, k) {
      assert AgedSlot(c, t, i, j, k);
    }
  }

  lemma OtherVisited(s: Snoop, i: nat, k: L2Key)
    requires DbInv(s) && i < |s.db| && !PioneerAt(s, i, k)
    ensures AgedAt(s, AgeSlot(s, i), i, k) && SameEntry(s, AgeSlot(s, i), k)
  {
    var t := AgeSlot(s, i);
    if !IsValid(s.db[i].gda) {
      forall j {:trigger AgedSlot(s, t, i, j, k)} | 0 <= j < |s.db| ensures AgedSlot(s, t, i, j, k) {
      }
    } else {
      var c := if IsPioneer(s.db[i].gda) then Cast(s, i, AgeSummary(s, i, |s.db|)) else s;
      var pal := FirstPal(s.db, i, 0);
      assert DbInv(c) && GroupAt(c, i);
      if s.lists[i].age != {} {
        ListsAged(c, i, k);
      } else if IsPioneer(s.db[i].gda) && pal < |s.db| {
        OtherTakenOver(c, i, pal, k);
      } else {
        SilentErased(c, i, k);
      }
      CastBefore(s, c, t, i, k);
    }
  }

  lemma CountingKept(s: Snoop, t: Snoop, i: nat, k: L2Key, p: int)
    requires AgedAt(s, t, i, k)
    ensures Counting(t, i + 1, k, p) == Counting(s, i, k, p)
  {
    forall j | 0 <= j < |s.db|
      ensures CountsAt(t, i + 1, j, k, p) <==> CountsAt(s, i, j, k, p)
      ensures CountsAt(t, i + 1, j, k, p) ==> t.db[j] == s.db[j]
    {
      assert AgedSlot(s, t, i, j, k);
    }
  }

  lemma TwiceAgedKept(s: Snoop, t: Snoop, i: nat, e: nat, k: L2Key)
    requires AgedAt(s, t, i, k) && i < e < |s.db| && OnEntry(s, e, k)
    ensures TwiceAged(t, i + 1, e, k) == TwiceAged(s, i, e, k)
  {
    forall j | 0 <= j < e ensures StaysAt(s, i, j, k) <==> StaysAt(t, i + 1, j, k) {
      assert AgedSlot(s, t, i, j, k);
    }
    SameStaying(s, t, i, e, 0, k);
    assert AgedSlot(s, t, i, e, k);
    var j := FirstStaying(s, i, e, 0, k);
    if j < e {
      assert AgedSlot(s, t, i, j, k);
    }
  }

  /** The walk passes a slot that is not the entry's pioneer. */
  lemma OtherPassed(s: Snoop, i: nat, k: L2Key, p: int) returns (t: Snoop)
    requires DbInv(s) && i < |s.db| && !PioneerAt(s, i, k) && AgedBelow(s, i, k)
    ensures DbInv(t) && |t.db| == |s.db| && t.routers == s.routers && AgeFrom(s, i) == AgeFrom(t, i + 1)
    ensures AgedBelow(t, i + 1, k) && Counting(t, i + 1, k, p) == Counting(s, i, k, p)
    ensures InL2(t, k, p) <==> InL2(s, k, p)
    ensures forall j :: PioneerAt(t, j, k) <==> PioneerAt(s, j, k)
    ensures forall e {:trigger TwiceAged(t, i + 1, e, k)} :: i < e < |s.db| && PioneerAt(s, e, k) ==>
              TwiceAged(t, i + 1, e, k) == TwiceAged(s, i, e, k)
  {
    t := AgeSlot(s, i);
    OtherVisited(s, i, k);
    AgeSlotKeepsInv(s, i);
    CountingKept(s, t, i, k, p);
    forall j ensures PioneerAt(t, j, k) <==> PioneerAt(s, j, k) {
      if 0 <= j < |s.db| {
        assert AgedSlot(s, t, i, j, k);
      }
    }
    forall j {:trigger OnEntry(t, j, k)} | 0 <= j < i + 1 && OnEntry(t, j, k) ensures t.lists[j].age == {} {
      assert AgedSlot(s, t, i, j, k);
    }
    forall e {:trigger TwiceAged(t, i + 1, e, k)} | i < e < |s.db| && PioneerAt(s, e, k)
      ensures TwiceAged(t, i + 1, e, k) == TwiceAged(s, i, e, k)
    {
      TwiceAgedKept(s, t, i, e, k);
    }
  }

  // ---------- the entry's pioneer ----------

  lemma AgedPartMeans(s: Snoop, e: nat, j: nat, k: L2Key, p: int)
    requires DbInv(s) && PioneerAt(s, e, k) && j < |s.db| && !Scanned(s, k.vid, p)
    ensures p in AgedPart(s, e, j) <==> CountsAt(s, e, j, k, p)
  {
    PalsShareKey(s.db[e], s.db[j]);
  }

  lemma {:induction false} AgeSummaryMeans(s: Snoop, e: nat, n: nat, k: L2Key, p: int)
    requires DbInv(s) && PioneerAt(s, e, k) && n <= |s.db| && !Scanned(s, k.vid, p)
    ensures p in AgeSummary(s, e, n) <==> exists j :: 0 <= j < n && CountsAt(s, e, j, k, p)
  {
    if n == 0 {
    } else {
      AgedPartMeans(s, e, n - 1, k, p);
      AgeSummaryMeans(s, e, n - 1, k, p);
    }
  }

  /** Router ports apart, a pioneer's summary holds exactly the ports some group of the entry keeps. */
  lemma AgeSummaryIsCounting(s: Snoop, e: nat, k: L2Key, p: int)
    requires DbInv(s) && PioneerAt(s, e, k) && !Scanned(s, k.vid, p)
    ensures p in AgeSummary(s, e, |s.db|) <==> Counting(s, e, k, p) != {}
  {
    AgeSummaryMeans(s, e, |s.db|, k, p);
    if j :| 0 <= j < |s.db| && CountsAt(s, e, j, k, p) {
      assert IdOf(s.db[j]) in Counting(s, e, k, p);
    }
  }

  /** The group that a pal before the pioneer can be. */
  lemma FirstStayingIsPal(s: Snoop, e: nat, k: L2Key)
    requires DbInv(s) && PioneerAt(s, e, k)
    ensures FirstStaying(s, e, e, 0, k) == if FirstPal(s.db, e, 0) < e then FirstPal(s.db, e, 0) else e
  {
    forall j | 0 <= j < e ensures StaysAt(s, e, j, k) <==> ValidPal(s.db, e, j) {
      PalsShareKey(s.db[e], s.db[j]);
    }
  }

  /** A silent pioneer without pals goes, and the entry with it; nobody kept a port. */
  lemma LonerErased(s: Snoop, e: nat, k: L2Key, p: int)
    requires DbInv(s) && PioneerAt(s, e, k) && s.lists[e].age == {} && FirstPal(s.db, e, 0) == |s.db|
    ensures !InL2(Erase(s, e), k, p) && Counting(s, e, k, p) == {}
  {
    forall j | 0 <= j < |s.db| ensures !CountsAt(s, e, j, k, p) {
      if j != e && GroupAt(s, j) {
        AloneOnEntry(s, e, j);
      }
    }
  }

  /** A take-over moves the pal's group to the pioneer's slot, with its age bits as its list; other slots stay. */
  lemma TakenOverSlots(s: Snoop, e: nat, pal: nat, k: L2Key, p: int, j: nat)
    requires DbInv(s) && PioneerAt(s, e, k) && s.lists[e].age == {} && ValidPal(s.db, e, pal) && j < |s.db|
    ensures
      var t := AgeLists(TakeOver(s, e, pal), e);
      (j == e ==> IdOf(t.db[j]) == IdOf(s.db[pal]) && PioneerAt(t, e, k) &&
                  (CountsAt(t, e + 1, j, k, p) <==> p in s.lists[pal].age) && t.lists[j].age == {}) &&
      (j == pal ==> !GroupAt(t, j)) &&
      (j != e && j != pal ==> t.db[j] == s.db[j] && t.lists[j] == s.lists[j] &&
                              (CountsAt(t, e + 1, j, k, p) <==> CountsAt(s, e, j, k, p)))
  {
    PalsShareKey(s.db[e], s.db[pal]);
    AddressFacts(s.db[pal].gda);
    MacIsLow23(ValidPioneer(s.db[pal].gda), s.db[pal].gda);
    assert !IsValid(0);
  }

  /** A pal takes over: it keeps what it had, unless it stands before the pioneer and was aged already. */
  lemma TakenOverCounting(s: Snoop, e: nat, pal: nat, k: L2Key, p: int)
    requires DbInv(s) && PioneerAt(s, e, k) && s.lists[e].age == {} && ValidPal(s.db, e, pal) && AgedBelow(s, e, k)
    ensures
      var t := AgeLists(TakeOver(s, e, pal), e);
      Counting(t, e + 1, k, p) == Counting(s, e, k, p) - if pal < e then {IdOf(s.db[pal])} else {}
  {
    var t := AgeLists(TakeOver(s, e, pal), e);
    PalsShareKey(s.db[e], s.db[pal]);
    assert OnEntry(s, pal, k);
    TakenOverSlots(s, e, pal, k, p, e);
    TakenOverSlots(s, e, pal, k, p, pal);
    forall id | id in Counting(t, e + 1, k, p)
      ensures id in Counting(s, e, k, p) && (pal < e ==> id != IdOf(s.db[pal]))
    {
      var j :| 0 <= j < |t.db| && CountsAt(t, e + 1, j, k, p) && IdOf(t.db[j]) == id;
      TakenOverSlots(s, e, pal, k, p, j);
      assert CountsAt(s, e, if j == e then pal else j, k, p);
    }
    forall id | id in Counting(s, e, k, p) && (pal < e ==> id != IdOf(s.db[pal]))
      ensures id in Counting(t, e + 1, k, p)
    {
      var j :| 0 <= j < |s.db| && CountsAt(s, e, j, k, p) && IdOf(s.db[j]) == id;
      TakenOverSlots(s, e, pal, k, p, j);
      assert CountsAt(t, e + 1, if j == pal then e else j, k, p);
    }
  }

  ghost predicate OnlyPioneer(s: Snoop, e: nat, k: L2Key) {
    PioneerAt(s, e, k) && forall j :: PioneerAt(s, j, k) ==> j == e
  }

  /** What the visit of the pioneer leaves behind. */
  ghost predicate PioneerDone(s: Snoop, t: Snoop, e: nat, k: L2Key, p: int) {
    DbInv(s) && DbInv(t) && e < |s.db| == |t.db| && AgedBelow(t, e + 1, k) &&
    Counting(t, e + 1, k, p) == Counting(s, e, k, p) - TwiceAged(s, e, e, k) &&
    forall j :: e < j ==> !PioneerAt(t, j, k)
  }

  lemma PioneerListsAged(s: Snoop, e: nat, k: L2Key, p: int)
    requires DbInv(s) && OnlyPioneer(s, e, k) && AgedBelow(s, e, k) && s.lists[e].age != {}
    ensures PioneerDone(s, AgeLists(s, e), e, k, p)
  {
    var t := AgeLists(s, e);
    ListsAged(s, e, k);
    CountingKept(s, t, e, k, p);
    assert t.db == s.db;
    forall j {:trigger OnEntry(t, j, k)} | 0 <= j < e + 1 && OnEntry(t, j, k) ensures t.lists[j].age == {} {
      assert OnEntry(s, j, k);
    }
    forall j | e < j ensures !PioneerAt(t, j, k) {
      assert PioneerAt(t, j, k) ==> PioneerAt(s, j, k);
    }
  }

  lemma PioneerTakenOver(s: Snoop, e: nat, k: L2Key, p: int)
    requires DbInv(s) && OnlyPioneer(s, e, k) && AgedBelow(s, e, k) && s.lists[e].age == {}
    requires FirstPal(s.db, e, 0) < |s.db|
    ensures PioneerDone(s, AgeLists(TakeOver(s, e, FirstPal(s.db, e, 0)), e), e, k, p)
  {
    var pal := FirstPal(s.db, e, 0);
    var t := AgeLists(TakeOver(s, e, pal), e);
    TakeOverKeepsInv(s, e, pal);
    TakenOverCounting(s, e, pal, k, p);
    FirstStayingIsPal(s, e, k);
    forall j {:trigger OnEntry(t, j, k)} | 0 <= j < e + 1 && OnEntry(t, j, k) ensures t.lists[j].age == {} {
      TakenOverSlots(s, e, pal, k, p, j);
      assert j != e ==> OnEntry(s, j, k);
    }
    forall j | e < j ensures !PioneerAt(t, j, k) {
      if j < |s.db| {
        TakenOverSlots(s, e, pal, k, p, j);
        assert PioneerAt(t, j, k) ==> PioneerAt(s, j, k);
      }
    }
  }

  lemma PioneerErased(s: Snoop, e: nat, k: L2Key, p: int)
    requires DbInv(s) && OnlyPioneer(s, e, k) && AgedBelow(s, e, k) && s.lists[e].age == {}
    requires FirstPal(s.db, e, 0) == |s.db|
    ensures PioneerDone(s, Erase(s, e), e, k, p)
  {
    var t := Erase(s, e);
    EraseKeepsInv(s, e);
    SilentErased(s, e, k);
    CountingKept(s, t, e, k, p);
    LonerErased(s, e, k, p);
    forall j {:trigger OnEntry(t, j, k)} | 0 <= j < e + 1 && OnEntry(t, j, k) ensures t.lists[j].age == {} {
      assert AgedSlot(s, t, e, j, k);
    }
    forall j | e < j ensures !PioneerAt(t, j, k) {
      if j < |s.db| {
        assert AgedSlot(s, t, e, j, k);
        assert PioneerAt(t, j, k) ==> PioneerAt(s, j, k);
      }
    }
  }

  lemma SameCounting(s: Snoop, c: Snoop, e: nat, k: L2Key, p: int)
    requires WellFormed(s) && WellFormed(c) && c.db == s.db && c.lists == s.lists && e < |s.db|
    ensures Counting(c, e, k, p) == Counting(s, e, k, p) && TwiceAged(c, e, e, k) == TwiceAged(s, e, e, k)
    ensures forall j :: PioneerAt(c, j, k) <==> PioneerAt(s, j, k)
  {
    forall j | 0 <= j < |s.db| ensures CountsAt(c, e, j, k, p) <==> CountsAt(s, e, j, k, p) {
    }
    FirstStayingOfSame(s, c, e, 0, k);
  }

  lemma {:induction false} FirstStayingOfSame(s: Snoop, c: Snoop, e: nat, h: nat, k: L2Key)
    requires WellFormed(s) && WellFormed(c) && c.db == s.db && c.lists == s.lists && h <= e
    ensures FirstStaying(c, e, e, h, k) == FirstStaying(s, e, e, h, k)
    decreases e - h
  {
    if h == e {
    } else {
      FirstStayingOfSame(s, c, e, h + 1, k);
    }
  }

  /** The visit of the pioneer after the entry was cast. */
  lemma CastVisited(s: Snoop, e: nat, k: L2Key, p: int) returns (c: Snoop, t: Snoop)
    requires DbInv(s) && OnlyPioneer(s, e, k) && AgedBelow(s, e, k)
    ensures c == Cast(s, e, AgeSummary(s, e, |s.db|)) && t == AgeSlot(s, e) && PioneerDone(c, t, e, k, p)
    ensures InL2(t, k, p) <==> InL2(c, k, p) && !(s.lists[e].age == {} && FirstPal(s.db, e, 0) == |s.db|)
  {
    c, t := Cast(s, e, AgeSummary(s, e, |s.db|)), AgeSlot(s, e);
    SameCounting(s, c, e, k, p);
    assert DbInv(c) && AgedBelow(c, e, k) by {
      forall j {:trigger OnEntry(c, j, k)} | 0 <= j < e && OnEntry(c, j, k) ensures c.lists[j].age == {} {
        assert OnEntry(s, j, k);
      }
    }
    var pal := FirstPal(s.db, e, 0);
    if s.lists[e].age != {} {
      PioneerListsAged(c, e, k, p);
    } else if pal < |s.db| {
      PioneerTakenOver(c, e, k, p);
    } else {
      PioneerErased(c, e, k, p);
      LonerErased(c, e, k, p);
    }
  }

  /** The walk passes the entry's pioneer: the entry keeps the ports that some group keeps. */
  lemma PioneerPassed(s: Snoop, e: nat, k: L2Key, p: int) returns (t: Snoop)
    requires DbInv(s) && OnlyPioneer(s, e, k) && AgedBelow(s, e, k) && !Scanned(s, k.vid, p)
    ensures PioneerDone(s, t, e, k, p) && AgeFrom(s, e) == AgeFrom(t, e + 1)
    ensures InL2(t, k, p) <==> InL2(s, k, p) && Counting(s, e, k, p) != {}
  {
    var c;
    c, t := CastVisited(s, e, k, p);
    SameCounting(s, c, e, k, p);
    AgeSummaryIsCounting(s, e, k, p);
    if s.lists[e].age == {} && FirstPal(s.db, e, 0) == |s.db| {
      LonerErased(s, e, k, p);
    }
  }

  // ---------- the whole walk ----------

  /** Behind the pioneer, or without one, the walk leaves each group the ports it keeps, and the entry alone. */
  lemma {:induction false} AgeRest(s: Snoop, i: nat, k: L2Key, p: int)
    requires DbInv(s) && i <= |s.db| && AgedBelow(s, i, k) && forall j :: i <= j ==> !PioneerAt(s, j, k)
    ensures
      var t := AgeFrom(s, i);
      Users(t, false, k, p) == Counting(s, i, k, p) && Users(t, true, k, p) == {} && (InL2(t, k, p) <==> InL2(s, k, p))
    decreases |s.db| - i
  {
    if i == |s.db| {
      NothingPending(s, k, p);
    } else {
      var t := OtherPassed(s, i, k, p);
      AgeRest(t, i + 1, k, p);
    }
  }

  lemma NothingPending(s: Snoop, k: L2Key, p: int)
    requires WellFormed(s) && AgedBelow(s, |s.db|, k)
    ensures Counting(s, |s.db|, k, p) == Users(s, false, k, p) && Users(s, true, k, p) == {}
  {
    forall j | 0 <= j < |s.db| ensures CountsAt(s, |s.db|, j, k, p) <==> UsesAt(s, false, j, k, p) {
    }
    forall j | 0 <= j < |s.db| ensures !UsesAt(s, true, j, k, p) {
      assert OnEntry(s, j, k) ==> s.lists[j].age == {};
    }
  }

  lemma AgeAtPioneer(s: Snoop, e: nat, k: L2Key, p: int)
    requires DbInv(s) && OnlyPioneer(s, e, k) && AgedBelow(s, e, k) && !Scanned(s, k.vid, p)
    ensures
      var t := AgeFrom(s, e);
      Users(t, false, k, p) == Counting(s, e, k, p) - TwiceAged(s, e, e, k) && Users(t, true, k, p) == {} &&
      (InL2(t, k, p) <==> InL2(s, k, p) && Counting(s, e, k, p) != {})
  {
    var t := PioneerPassed(s, e, k, p);
    AgeRest(t, e + 1, k, p);
  }

  /** From before the pioneer in slot e. */
  lemma {:induction false} AgeUpTo(s: Snoop, i: nat, e: nat, k: L2Key, p: int)
    requires DbInv(s) && i <= e && OnlyPioneer(s, e, k) && AgedBelow(s, i, k) && !Scanned(s, k.vid, p)
    ensures
      var t := AgeFrom(s, i);
      Users(t, false, k, p) == Counting(s, i, k, p) - TwiceAged(s, i, e, k) && Users(t, true, k, p) == {} &&
      (InL2(t, k, p) <==> InL2(s, k, p) && Counting(s, i, k, p) != {})
    decreases e - i
  {
    if i == e {
      AgeAtPioneer(s, e, k, p);
    } else {
      var t := OtherPassed(s, i, k, p);
      AgeUpTo(t, i + 1, e, k, p);
    }
  }

  // ---------- the main results ----------

  /** The group on entry k that an ageing leaves without a port although it was active, if there is one. */
  function Stranded(s: Snoop, k: L2Key): set<GroupId>
    requires WellFormed(s)
  {
    set e, id | 0 <= e < |s.db| && PioneerAt(s, e, k) && id in TwiceAged(s, 0, e, k) :: id
  }

  lemma StrandedIs(s: Snoop, e: nat, k: L2Key)
    requires WellFormed(s) && OnlyPioneer(s, e, k)
    ensures Stranded(s, k) == TwiceAged(s, 0, e, k)
  {
  }

  /** It stands before a pioneer without age bits, and is the first group of the entry that has any. */
  lemma StrandedMeans(s: Snoop, k: L2Key, id: GroupId)
    requires WellFormed(s)
    ensures id in Stranded(s, k) <==>
            exists e: nat, j: nat ::
              PioneerAt(s, e, k) && s.lists[e].age == {} && j < e && StaysAt(s, 0, j, k) && IdOf(s.db[j]) == id &&
              forall h :: 0 <= h < j ==> !StaysAt(s, 0, h, k)
  {
    if id in Stranded(s, k) {
      var e: nat :| e < |s.db| && PioneerAt(s, e, k) && id in TwiceAged(s, 0, e, k);
      assert StaysAt(s, 0, FirstStaying(s, 0, e, 0, k), k);
    }
    if e: nat, j: nat :| PioneerAt(s, e, k) && s.lists[e].age == {} && j < e && StaysAt(s, 0, j, k) &&
                         IdOf(s.db[j]) == id && forall h :: 0 <= h < j ==> !StaysAt(s, 0, h, k)
    {
      assert FirstStaying(s, 0, e, 0, k) == j;
      assert id in TwiceAged(s, 0, e, k);
    }
  }

  lemma CountingAtStart(s: Snoop, k: L2Key, p: int)
    requires WellFormed(s)
    ensures Counting(s, 0, k, p) == Actives(s, k, p)
  {
    forall j | 0 <= j < |s.db| ensures CountsAt(s, 0, j, k, p) <==> UsesAt(s, true, j, k, p) {
    }
  }

  lemma UnservedIsUnused(s: Snoop, k: L2Key, p: int)
    requires DbInv(s) && Served(s) && !HasPioneer(s, k)
    ensures Holders(s, k, p) == {} && Actives(s, k, p) == {}
  {
    forall aged, j ensures !UsesAt(s, aged, j, k, p) {
      assert GroupAt(s, j) ==> ServedAt(s, j);
    }
  }

  /**
   The ageing takes from each group the ports without age bits, clears the age bits, and
   leaves one group without any port: the pal that takes over from a silent pioneer behind it.
   */
  lemma AgeView(s: Snoop, k: L2Key, p: int)
    requires DbInv(s) && Served(s) && !Scanned(s, k.vid, p)
    ensures Holders(AgeFrom(s, 0), k, p) == Actives(s, k, p) - Stranded(s, k)
    ensures Actives(AgeFrom(s, 0), k, p) == {}
    ensures InL2(AgeFrom(s, 0), k, p) <==> InL2(s, k, p) && (HasPioneer(s, k) ==> Actives(s, k, p) != {})
  {
    CountingAtStart(s, k, p);
    if e :| PioneerAt(s, e, k) {
      StrandedIs(s, e, k);
      AgeUpTo(s, 0, e, k, p);
    } else {
      AgeRest(s, 0, k, p);
      UnservedIsUnused(s, k, p);
    }
  }

  /** The entry keeps exactly the ports that some group had in its age bits. */
  lemma AgeL2(s: Snoop, k: L2Key, p: int)
    requires DbInv(s) && Served(s) && !Scanned(s, k.vid, p) && Agrees(s, k, p)
    ensures InL2(AgeFrom(s, 0), k, p) <==> Actives(s, k, p) != {}
  {
    AgeView(s, k, p);
    if !HasPioneer(s, k) {
      UnservedIsUnused(s, k, p);
    }
    if id :| id in Actives(s, k, p) {
      var j :| 0 <= j < |s.db| && UsesAt(s, true, j, k, p) && IdOf(s.db[j]) == id;
      assert UsesAt(s, false, j, k, p);
    }
  }

  /**
   Entry and groups that agree still agree after the ageing if and only if no group had the
   port in its age bits, or one that had it is not the pal aged twice.
   */
  lemma AgeKeepsL2Exactly(s: Snoop, k: L2Key, p: int)
    requires DbInv(s) && Served(s) && !Scanned(s, k.vid, p) && Agrees(s, k, p)
    ensures Agrees(AgeFrom(s, 0), k, p) <==> Actives(s, k, p) == {} || Actives(s, k, p) - Stranded(s, k) != {}
  {
    AgeView(s, k, p);
    AgeL2(s, k, p);
  }
}
