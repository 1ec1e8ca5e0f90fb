/**
 The groups of one layer-2 entry and their pioneer: exactly one of them stands for the entry,
 and the entry is there. A report of a follower finds its entry through the pioneer.
 */
module IgmpPioneers {
  import opened Uplists
  import opened Words
  import opened IgmpGroups
  import opened IgmpLeaves
  import opened IgmpEntries
  import opened IgmpReports

  /** Slot j is a group on entry k and its pioneer. */
  predicate PioneerAt(s: Snoop, j: int, k: L2Key) {
    GroupAt(s, j) && IsPioneer(s.db[j].gda) && L2KeyOf(s.db[j]) == k
  }

  ghost predicate HasPioneer(s: Snoop, k: L2Key) {
    exists j :: PioneerAt(s, j, k)
  }

  /** The entry of the group in slot j is there and has a pioneer. */
  ghost predicate ServedAt(s: Snoop, j: int)
    requires GroupAt(s, j)
  {
    L2KeyOf(s.db[j]) in s.l2 && HasPioneer(s, L2KeyOf(s.db[j]))
  }

  /** Every group is served, no entry has two pioneers, and a slot that is not in use has address 0. */
  ghost predicate Served(s: Snoop) {
    (forall j {:trigger GroupAt(s, j)} :: GroupAt(s, j) ==> ServedAt(s, j)) &&
    (forall i, j, k :: PioneerAt(s, i, k) && PioneerAt(s, j, k) ==> i == j) &&
    forall j :: 0 <= j < |s.db| && !IsValid(s.db[j].gda) ==> s.db[j].gda == 0
  }

  /** Nothing but ports changes, and every entry stays. */
  lemma SameGroupsServed(s: Snoop, t: Snoop)
    requires Served(s) && t.db == s.db && forall k :: k in s.l2 ==> k in t.l2
    ensures Served(t)
  {
    forall j, k ensures PioneerAt(t, j, k) <==> PioneerAt(s, j, k) {
    }
    forall j | GroupAt(t, j) ensures ServedAt(t, j) {
      assert GroupAt(s, j) && ServedAt(s, j);
      var i :| PioneerAt(s, i, L2KeyOf(s.db[j]));
      assert PioneerAt(t, i, L2KeyOf(t.db[j]));
    }
  }

  lemma EraseKeepsKey(s: Snoop, e: nat, k: L2Key)
    requires DbInv(s) && e < |s.db| && k in s.l2 && (IsPioneer(s.db[e].gda) ==> L2KeyOf(s.db[e]) != k)
    ensures k in Erase(s, e).l2
  {
    assert s.db[e].vid % VID_LIMIT == s.db[e].vid;
  }

  lemma ErasePioneers(s: Snoop, e: nat, j: int, k: L2Key)
    requires WellFormed(s) && e < |s.db|
    ensures PioneerAt(Erase(s, e), j, k) <==> PioneerAt(s, j, k) && j != e
  {
    assert Erase(s, e).db == s.db[e := s.db[e].(gda := 0)];
  }

  lemma ErasedSlots(s: Snoop, e: nat, j: int)
    requires WellFormed(s) && e < |s.db|
    ensures GroupAt(Erase(s, e), j) <==> GroupAt(s, j) && j != e
    ensures Erase(s, e).db == s.db[e := s.db[e].(gda := 0)]
  {
    assert !IsValid(0);
  }

  /** Nobody else is on the entry of a pioneer without pals. */
  lemma AloneOnEntry(s: Snoop, e: nat, j: int)
    requires DbInv(s) && GroupAt(s, e) && GroupAt(s, j) && j != e && FirstPal(s.db, e, 0) == |s.db|
    ensures L2KeyOf(s.db[e]) != L2KeyOf(s.db[j])
  {
    PalsShareKey(s.db[e], s.db[j]);
    assert !ValidPal(s.db, e, j);
  }

  /** A group other than the erased one is still served. */
  lemma EraseServesOthers(s: Snoop, e: nat, j: int)
    requires DbInv(s) && Served(s) && GroupAt(s, e) && GroupAt(s, j) && j != e
    requires IsPioneer(s.db[e].gda) ==> FirstPal(s.db, e, 0) == |s.db|
    ensures GroupAt(Erase(s, e), j) && ServedAt(Erase(s, e), j)
  {
    var t, key := Erase(s, e), L2KeyOf(s.db[j]);
    if IsPioneer(s.db[e].gda) {
      AloneOnEntry(s, e, j);
    }
    assert ServedAt(s, j);
    EraseKeepsKey(s, e, key);
    var i :| PioneerAt(s, i, key);
    ErasePioneers(s, e, i, key);
  }

  /** One slot is emptied, and every group left is served. */
  lemma EmptiedIsServed(s: Snoop, t: Snoop, e: nat)
    requires Served(s) && e < |s.db| && t.db == s.db[e := s.db[e].(gda := 0)]
    requires forall j :: GroupAt(t, j) ==> ServedAt(t, j)
    ensures Served(t)
  {
    assert !IsValid(0);
    forall j, k ensures PioneerAt(t, j, k) ==> PioneerAt(s, j, k) {
    }
  }

  /** A group that is a follower, or alone on its entry, goes. */
  lemma EraseKeepsServed(s: Snoop, e: nat)
    requires DbInv(s) && Served(s) && GroupAt(s, e)
    requires IsPioneer(s.db[e].gda) ==> FirstPal(s.db, e, 0) == |s.db|
    ensures Served(Erase(s, e))
  {
    forall j | GroupAt(Erase(s, e), j) ensures ServedAt(Erase(s, e), j) {
      ErasedSlots(s, e, j);
      EraseServesOthers(s, e, j);
    }
    ErasedSlots(s, e, 0);
    EmptiedIsServed(s, Erase(s, e), e);
  }

  /** A pal takes over from the pioneer. */
  lemma TakeOverKeepsServed(s: Snoop, e: nat, pal: nat)
    requires DbInv(s) && Served(s) && GroupAt(s, e) && IsPioneer(s.db[e].gda) && ValidPal(s.db, e, pal)
    ensures Served(TakeOver(s, e, pal))
  {
    var t, key := TakeOver(s, e, pal), L2KeyOf(s.db[e]);
    assert !IsValid(0);
    AddressFacts(s.db[pal].gda);
    MacIsLow23(t.db[e].gda, s.db[pal].gda);
    PalsShareKey(s.db[e], s.db[pal]);
    assert PioneerAt(s, e, key) && PioneerAt(t, e, key);
    assert !PioneerAt(s, pal, key);
    forall j, k ensures PioneerAt(t, j, k) <==> PioneerAt(s, j, k) {
      assert j == e && k == L2KeyOf(t.db[e]) ==> k == key;
    }
    forall j | GroupAt(t, j) ensures ServedAt(t, j) {
      assert GroupAt(s, j) && ServedAt(s, j);
      var i :| PioneerAt(s, i, L2KeyOf(s.db[j]));
      assert PioneerAt(t, i, L2KeyOf(s.db[j]));
      assert L2KeyOf(t.db[j]) == L2KeyOf(s.db[j]);
    }
  }

  lemma ExpireKeepsServed(s: Snoop, i: nat, u: int)
    requires DbInv(s) && Served(s) && GroupAt(s, i)
    ensures Served(Expire(s, i, u))
  {
    var t := StrikePort(s, i, u);
    SameGroupsServed(s, t);
    StrikePortKeepsInv(s, i, u);
    if t.lists[i].uplist == {} {
      assert GroupAt(t, i);
      if IsPioneer(t.db[i].gda) {
        var c := Cast(t, i, Summary(t, i, |t.db|));
        SameGroupsServed(t, c);
        assert DbInv(c) && GroupAt(c, i);
        if FirstPal(t.db, i, 0) < |t.db| {
          TakeOverKeepsServed(c, i, FirstPal(t.db, i, 0));
        } else {
          EraseKeepsServed(c, i);
        }
      } else {
        EraseKeepsServed(t, i);
      }
    }
  }

  lemma {:induction false} TickKeepsServed(s: Snoop, q: seq<Leave>, k: nat, started: bool)
    requires DbInv(s) && Served(s) && k <= |q| && Queued(q)
    ensures Served(Tick(s, q, k, started).snoop)
    decreases |q| - k
  {
    if k == |q| {
    } else {
      TickAfterRecord(s, q, k, started);
      RecordStep(s, q, k, RecordKey(q[k]), q[k].uport);
      if ExpiresAt(q, k) && Known(s, q[k]) {
        FindsNamed(s, q[k]);
        ExpireKeepsServed(s, Find(s.db, q[k].vid, q[k].gda, 0), q[k].uport);
      }
      TickKeepsServed(AfterRecord(s, q, k), q, k + 1, true);
    }
  }

  lemma AgeSlotKeepsServed(s: Snoop, i: nat)
    requires DbInv(s) && Served(s) && i < |s.db|
    ensures Served(AgeSlot(s, i))
  {
    if IsValid(s.db[i].gda) {
      var c := if IsPioneer(s.db[i].gda) then Cast(s, i, AgeSummary(s, i, |s.db|)) else s;
      SameGroupsServed(s, c);
      assert DbInv(c) && GroupAt(c, i);
      var pal := FirstPal(s.db, i, 0);
      if s.lists[i].age != {} {
        SameGroupsServed(c, AgeLists(c, i));
      } else if IsPioneer(s.db[i].gda) && pal < |s.db| {
        TakeOverKeepsServed(c, i, pal);
        SameGroupsServed(TakeOver(c, i, pal), AgeLists(TakeOver(c, i, pal), i));
      } else {
        EraseKeepsServed(c, i);
      }
    }
  }

  lemma {:induction false} AgeFromKeepsServed(s: Snoop, i: nat)
    requires DbInv(s) && Served(s) && i <= |s.db|
    ensures Served(AgeFrom(s, i))
    decreases |s.db| - i
  {
    if i == |s.db| {
    } else {
      AgeSlotKeepsInv(s, i);
      AgeSlotKeepsServed(s, i);
      AgeFromKeepsServed(AgeSlot(s, i), i + 1);
    }
  }

  // ---------- reports ----------

  /** The new group's pals, whether or not their slots are in use, are groups on its entry. */
  predicate PalsAreGroups(s: Snoop, n: nat, vid: nat, gda: Word)
    requires n < |s.db|
  {
    var db := s.db[n := DbEntry(gda, vid)];
    AnyPal(db, n, 0) < |db| ==> exists j :: 0 <= j < |db| && ValidPal(db, n, j)
  }

  /** The groups on the new group's entry, and its pals among the slots in use, are the same. */
  lemma PalsOfNew(s: Snoop, n: nat, vid: nat, gda: Word, j: nat)
    requires DbInv(s) && Reportable(vid, gda) && n < |s.db| && j < |s.db| && j != n
    ensures ValidPal(s.db[n := DbEntry(gda, vid)], n, j) <==>
            GroupAt(s, j) && L2KeyOf(s.db[j]) == L2Key(vid, ComposeMac(gda))
  {
    PalsShareKey(DbEntry(gda, vid), s.db[j]);
  }

  /** With a pal among the groups, the new one is a follower of their pioneer. */
  lemma FollowerIsServed(s: Snoop, n: nat, vid: nat, gda: Word, ports: PortSet, j: nat)
    requires DbInv(s) && Served(s) && Reportable(vid, gda) && Find(s.db, vid, gda, 0) == |s.db|
    requires n < |s.db| && !IsValid(s.db[n].gda) && ValidPal(s.db[n := DbEntry(gda, vid)], n, j)
    ensures Served(Enter(s, n, vid, gda, ports))
  {
    var t, key := Enter(s, n, vid, gda, ports), L2Key(vid, ComposeMac(gda));
    EnterKeepsInv(s, n, vid, gda, ports);
    AddressFacts(gda);
    PalsOfNew(s, n, vid, gda, j);
    assert PalSlots(s.db[n := DbEntry(gda, vid)], n, j);
    assert t.db[n].gda == Address(gda) && !IsPioneer(t.db[n].gda);
    EnteredIsServed(s, t, n, key);
  }

  /** Without any pal the new group is the pioneer of its entry. */
  lemma LonerIsServed(s: Snoop, n: nat, vid: nat, gda: Word, ports: PortSet)
    requires DbInv(s) && Served(s) && Reportable(vid, gda) && Find(s.db, vid, gda, 0) == |s.db|
    requires n < |s.db| && !IsValid(s.db[n].gda) && AnyPal(s.db[n := DbEntry(gda, vid)], n, 0) == |s.db|
    ensures Served(Enter(s, n, vid, gda, ports))
  {
    var t, key := Enter(s, n, vid, gda, ports), L2Key(vid, ComposeMac(gda));
    var db := s.db[n := DbEntry(gda, vid)];
    EnterKeepsInv(s, n, vid, gda, ports);
    AddressFacts(gda);
    assert t.db[n].gda == gda && IsPioneer(gda);
    forall j ensures !PioneerAt(s, j, key) {
      if 0 <= j < |s.db| && j != n {
        PalsOfNew(s, n, vid, gda, j);
        assert !PalSlots(db, n, j);
      }
    }
    EnteredIsServed(s, t, n, key);
  }

  /** A new group in slot n with one pioneer on its entry, itself or another. */
  lemma EnteredIsServed(s: Snoop, t: Snoop, n: nat, key: L2Key)
    requires Served(s) && n < |s.db| && !IsValid(s.db[n].gda) && |t.db| == |s.db|
    requires forall j :: 0 <= j < |s.db| && j != n ==> t.db[j] == s.db[j]
    requires GroupAt(t, n) && L2KeyOf(t.db[n]) == key && key in t.l2 && forall k :: k in s.l2 ==> k in t.l2
    requires if IsPioneer(t.db[n].gda) then !HasPioneer(s, key)
             else exists j :: GroupAt(s, j) && L2KeyOf(s.db[j]) == key
    ensures Served(t)
  {
    forall j, k ensures PioneerAt(t, j, k) <==> PioneerAt(s, j, k) || (j == n && k == key && IsPioneer(t.db[n].gda)) {
    }
    if IsPioneer(t.db[n].gda) {
      assert PioneerAt(t, n, key);
    } else {
      var j :| GroupAt(s, j) && L2KeyOf(s.db[j]) == key;
      assert ServedAt(s, j);
      var i :| PioneerAt(s, i, key);
      assert PioneerAt(t, i, key);
    }
    forall j | GroupAt(t, j) ensures ServedAt(t, j) {
      if j != n {
        assert GroupAt(s, j) && ServedAt(s, j);
        var i :| PioneerAt(s, i, L2KeyOf(s.db[j]));
        assert PioneerAt(t, i, L2KeyOf(t.db[j]));
      }
    }
  }

  /** With only unused slots for pals the new group follows nobody. */
  lemma StrayFollowerIsNotServed(s: Snoop, n: nat, vid: nat, gda: Word, ports: PortSet)
    requires DbInv(s) && Reportable(vid, gda) && Find(s.db, vid, gda, 0) == |s.db|
    requires n < |s.db| && !IsValid(s.db[n].gda) && !PalsAreGroups(s, n, vid, gda)
    ensures GroupAt(Enter(s, n, vid, gda, ports), n) && !ServedAt(Enter(s, n, vid, gda, ports), n)
  {
    var t, key := Enter(s, n, vid, gda, ports), L2Key(vid, ComposeMac(gda));
    var db := s.db[n := DbEntry(gda, vid)];
    EnterKeepsInv(s, n, vid, gda, ports);
    AddressFacts(gda);
    forall j ensures !PioneerAt(t, j, key) {
      if 0 <= j < |s.db| && j != n {
        PalsOfNew(s, n, vid, gda, j);
        assert !ValidPal(db, n, j);
      }
    }
  }

  /** A new group finds its pioneer, or is it, exactly if its pals are groups and not only unused slots. */
  lemma EnterServes(s: Snoop, n: nat, vid: nat, gda: Word, ports: PortSet)
    requires DbInv(s) && Served(s) && Reportable(vid, gda) && Find(s.db, vid, gda, 0) == |s.db|
    requires n < |s.db| && !IsValid(s.db[n].gda)
    ensures Served(Enter(s, n, vid, gda, ports)) <==> PalsAreGroups(s, n, vid, gda)
  {
    var db := s.db[n := DbEntry(gda, vid)];
    if AnyPal(db, n, 0) == |db| {
      LonerIsServed(s, n, vid, gda, ports);
    } else if j :| 0 <= j < |db| && ValidPal(db, n, j) {
      FollowerIsServed(s, n, vid, gda, ports, j);
    } else {
      StrayFollowerIsNotServed(s, n, vid, gda, ports);
    }
  }

  lemma RejoinKeepsServed(s: Snoop, i: nat, ports: PortSet)
    requires Served(s) && WellFormed(s) && i < |s.db|
    ensures Served(Rejoin(s, i, ports))
  {
    SameGroupsServed(s, Rejoin(s, i, ports));
  }

  /** A report keeps every group served exactly if it does not enter a group whose only pals are unused slots. */
  lemma UpdateServesExactly(s: Snoop, vid: nat, gda: Word, ports: PortSet, room: bool)
    requires DbInv(s) && Served(s) && Reportable(vid, gda)
    ensures Served(Update(s, vid, gda, ports, room).0) <==>
            Find(s.db, vid, gda, 0) < |s.db| || !Accepted(s, vid, gda, room) ||
            PalsAreGroups(s, NewSlot(s.db, 0), vid, gda)
  {
    var i, n := Find(s.db, vid, gda, 0), NewSlot(s.db, 0);
    if i < |s.db| {
      RejoinKeepsServed(s, i, ports);
    } else if n < |s.db| && room {
      EnterServes(s, n, vid, gda, ports);
      var t := Enter(s, n, vid, gda, ports);
      if Served(t) {
        SameGroupsServed(t, AddToLists(t, n, ports));
      }
      if Served(AddToLists(t, n, ports)) {
        SameGroupsServed(AddToLists(t, n, ports), t);
      }
    } else if n < |s.db| {
      SameGroupsServed(s, s.(db := s.db[n := s.db[n].(gda := 0)]));
    }
  }

  /** Unused slots are no pals of a group whose low address bits are not all zero. */
  lemma NonZeroPalsAreGroups(s: Snoop, n: nat, vid: nat, gda: Word)
    requires Served(s) && n < |s.db| && Low23(gda) != 0
    ensures PalsAreGroups(s, n, vid, gda)
  {
    var db := s.db[n := DbEntry(gda, vid)];
    var j := AnyPal(db, n, 0);
    if j < |db| {
      assert IsValid(s.db[j].gda);
      assert ValidPal(db, n, j);
    }
  }

  /** The report of a group that is served reaches its entry. */
  lemma ServedIsReached(s: Snoop, vid: nat, gda: Word)
    requires DbInv(s) && Served(s) && Reportable(vid, gda) && Find(s.db, vid, gda, 0) < |s.db|
    ensures EntryReached(s, vid, gda)
  {
    var i := Find(s.db, vid, gda, 0);
    FoundIsGroup(s, vid, gda);
    assert GroupAt(s, i) && ServedAt(s, i);
    var j :| PioneerAt(s, j, L2KeyOf(s.db[i]));
    if j != i {
      PalsShareKey(s.db[i], s.db[j]);
      assert PalSlots(s.db, i, j) && IsPioneer(s.db[j].gda);
    }
  }
}
