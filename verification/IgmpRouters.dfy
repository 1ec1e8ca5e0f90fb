/**
 Dynamic router ports and the layer-2 entries of IGMP snooping: when an expiry, a tick, a
 report or the ageing keeps them, and the laws of expiry and tick for every port.
 */
module IgmpRouters {
  import opened Uplists
  import opened Words
  import opened IgmpGroups
  import opened IgmpLeaves
  import opened IgmpEntries
  import opened IgmpReports
  import opened IgmpPioneers

  // ---------- one expiry ----------

  /** A router port is never struck from an entry. */
  lemma StrikeKeepsRouterPort(s: Snoop, i: nat, u: int, k: L2Key, p: int)
    requires DbInv(s) && GroupAt(s, i) && RouterPort(s, k.vid, p)
    ensures InL2(StrikePort(s, i, u), k, p) <==> InL2(s, k, p)
  {
  }

  /** A strike takes only the port of the group's own entry, and only if it is no router port and no pal is active. */
  lemma StrikeL2Everywhere(s: Snoop, i: nat, u: int, k: L2Key, p: int)
    requires DbInv(s) && GroupAt(s, i)
    ensures InL2(StrikePort(s, i, u), k, p) <==>
            InL2(s, k, p) && !(k == L2KeyOf(s.db[i]) && p == u && !RouterPort(s, k.vid, p) && !ActivePal(s, i, u))
  {
  }

  /** Another group of the entry of slot e lists the port, or the shorter scan finds it among the router ports. */
  ghost predicate KeptByPal(s: Snoop, e: nat, p: int)
    requires WellFormed(s) && e < |s.db|
  {
    exists j :: ValidPal(s.db, e, j) && (p in s.lists[j].uplist || Scanned(s, s.db[e].vid, p))
  }

  lemma {:induction false} SummaryExactly(s: Snoop, e: nat, n: nat, p: int)
    requires DbInv(s) && e < |s.db| && n <= |s.db|
    ensures p in Summary(s, e, n) <==>
            exists j :: 0 <= j < n && ValidPal(s.db, e, j) && (p in s.lists[j].uplist || Scanned(s, s.db[e].vid, p))
  {
    if n == 0 {
    } else {
      SummaryExactly(s, e, n - 1, p);
      assert ValidPal(s.db, e, n - 1) ==> s.db[n - 1].vid == s.db[e].vid;
    }
  }

  /** Removing an emptied pioneer casts its entry: any port stays exactly if it is kept by a pal. */
  lemma RemoveL2Everywhere(s: Snoop, e: nat, k: L2Key, p: int)
    requires DbInv(s) && GroupAt(s, e)
    ensures InL2(RemoveEntry(s, e), k, p) <==> InL2(s, k, p) && (PioneerAt(s, e, k) ==> KeptByPal(s, e, p))
  {
    SummaryExactly(s, e, |s.db|, p);
    assert L2Key(s.db[e].vid % VID_LIMIT, ComposeMac(s.db[e].gda)) == L2KeyOf(s.db[e]);
    if IsPioneer(s.db[e].gda) && FirstPal(s.db, e, 0) == |s.db| {
      assert !KeptByPal(s, e, p);
    }
  }

  /** Expiring port u in slot i takes port p from entry k. */
  ghost predicate ExpiryTakes(s: Snoop, i: nat, u: int, k: L2Key, p: int)
    requires WellFormed(s) && i < |s.db|
  {
    (k == L2KeyOf(s.db[i]) && p == u && !RouterPort(s, k.vid, p) && !ActivePal(s, i, u)) ||
    (s.lists[i].uplist - {u} == {} && PioneerAt(s, i, k) && !KeptByPal(s, i, p))
  }

  lemma StrikeKeepsPals(s: Snoop, i: nat, u: int, p: int)
    requires DbInv(s) && GroupAt(s, i)
    ensures
      var t := StrikePort(s, i, u);
      DbInv(t) && t.db == s.db && t.lists[i] == PortLists(s.lists[i].age - {u}, s.lists[i].uplist - {u}) &&
      (KeptByPal(t, i, p) <==> KeptByPal(s, i, p))
  {
    StrikePortKeepsInv(s, i, u);
    var t := StrikePort(s, i, u);
    if j :| ValidPal(s.db, i, j) && (p in s.lists[j].uplist || Scanned(s, s.db[i].vid, p)) {
      assert ValidPal(t.db, i, j) && t.lists[j] == s.lists[j];
    }
    if j :| ValidPal(t.db, i, j) && (p in t.lists[j].uplist || Scanned(t, t.db[i].vid, p)) {
      assert ValidPal(s.db, i, j) && t.lists[j] == s.lists[j];
    }
  }

  /** The law of an expiry for every port of every entry, router port or not. */
  lemma ExpireL2Everywhere(s: Snoop, i: nat, u: int, k: L2Key, p: int)
    requires DbInv(s) && GroupAt(s, i)
    ensures InL2(Expire(s, i, u), k, p) <==> InL2(s, k, p) && !ExpiryTakes(s, i, u, k, p)
  {
    var t := StrikePort(s, i, u);
    StrikeL2Everywhere(s, i, u, k, p);
    StrikeKeepsPals(s, i, u, p);
    if t.lists[i].uplist == {} {
      RemoveL2Everywhere(t, i, k, p);
    }
  }

  /** A router port that both scans find leaves an entry only together with the entry; and no entry comes back. */
  lemma ExpireKeepsRouterPort(s: Snoop, i: nat, u: int, k: L2Key, p: int)
    requires DbInv(s) && GroupAt(s, i) && Scanned(s, k.vid, p)
    ensures InL2(Expire(s, i, u), k, p) <==> InL2(s, k, p) && k in Expire(s, i, u).l2
    ensures k in Expire(s, i, u).l2 ==> k in s.l2
  {
    ExpireL2Everywhere(s, i, u, k, p);
    ShorterScan(s.routers, k.vid, 0, s.vlanCount);
    var t := StrikePort(s, i, u);
    StrikeKeepsPals(s, i, u, p);
    var pal := FirstPal(s.db, i, 0);
    if pal < |s.db| {
      assert PioneerAt(s, i, k) ==> KeptByPal(s, i, p);
    } else if t.lists[i].uplist == {} {
      assert PioneerAt(s, i, k) ==> !KeptByPal(s, i, p) && k !in Erase(Cast(t, i, Summary(t, i, |t.db|)), i).l2;
    }
  }

  // ---------- a tick ----------

  /** Record k runs out, its group is known, and its expiry takes port p from entry key. */
  ghost predicate RecordTakes(s: Snoop, q: seq<Leave>, k: nat, key: L2Key, p: int)
    requires WellFormed(s) && k < |q|
  {
    ExpiresAt(q, k) && Known(s, q[k]) && ExpiryTakes(s, Find(s.db, q[k].vid, q[k].gda, 0), q[k].uport, key, p)
  }

  /** The walk from record k on takes the port: this record does, or a later one, from the groups as they are then. */
  ghost predicate WalkTakes(s: Snoop, q: seq<Leave>, k: nat, key: L2Key, p: int)
    requires WellFormed(s) && k <= |q|
    decreases |q| - k
  {
    k < |q| && (RecordTakes(s, q, k, key, p) || WalkTakes(AfterRecord(s, q, k), q, k + 1, key, p))
  }

  lemma RecordL2Everywhere(s: Snoop, q: seq<Leave>, k: nat, key: L2Key, p: int)
    requires DbInv(s) && Queued(q) && k < |q|
    ensures
      var t := AfterRecord(s, q, k);
      DbInv(t) && (InL2(t, key, p) <==> InL2(s, key, p) && !RecordTakes(s, q, k, key, p))
  {
    if ExpiresAt(q, k) && Known(s, q[k]) {
      var i := Find(s.db, q[k].vid, q[k].gda, 0);
      FindsNamed(s, q[k]);
      ExpireKeepsInv(s, i, q[k].uport);
      ExpireL2Everywhere(s, i, q[k].uport, key, p);
    }
  }

  lemma EverywhereTurn(s: Snoop, q: seq<Leave>, k: nat, started: bool, key: L2Key, p: int) returns (t: Snoop)
    requires DbInv(s) && Queued(q) && k < |q| && !Halts(s, q, k, started)
    ensures DbInv(t) && Tick(s, q, k, started).snoop == Tick(t, q, k + 1, true).snoop
    ensures InL2(s, key, p) && !WalkTakes(s, q, k, key, p) <==> InL2(t, key, p) && !WalkTakes(t, q, k + 1, key, p)
  {
    t := AfterRecord(s, q, k);
    TickAfterRecord(s, q, k, started);
    RecordL2Everywhere(s, q, k, key, p);
  }

  lemma {:induction false} WalkL2Everywhere(s: Snoop, q: seq<Leave>, k: nat, started: bool, key: L2Key, p: int)
    requires DbInv(s) && Queued(q) && k <= |q| && !Halts(s, q, k, started)
    ensures InL2(Tick(s, q, k, started).snoop, key, p) <==> InL2(s, key, p) && !WalkTakes(s, q, k, key, p)
    decreases |q| - k
  {
    if k == |q| {
    } else {
      var t := EverywhereTurn(s, q, k, started, key, p);
      WalkL2Everywhere(t, q, k + 1, true, key, p);
    }
  }

  /**
   The law of a tick for every port of every entry, router port or not: it stays exactly if the
   walk ends at its first record, or no record that it expires takes it.
   */
  lemma TickL2Everywhere(s: Snoop, q: seq<Leave>, key: L2Key, p: int)
    requires DbInv(s) && Queued(q)
    ensures InL2(Tick(s, q, 0, false).snoop, key, p) <==>
            InL2(s, key, p) && (Halts(s, q, 0, false) || !WalkTakes(s, q, 0, key, p))
  {
    if Halts(s, q, 0, false) {
      TickAfterRecord(s, q, 0, false);
    } else {
      WalkL2Everywhere(s, q, 0, false, key, p);
    }
  }

  /** From s to t a router port that both scans find only goes with its entry, and no entry comes back. */
  predicate KeepsRouterPort(s: Snoop, t: Snoop, k: L2Key, p: int) {
    (InL2(t, k, p) <==> InL2(s, k, p) && k in t.l2) && (k in t.l2 ==> k in s.l2)
  }

  lemma RouterTurn(s: Snoop, q: seq<Leave>, k: nat, started: bool, key: L2Key, p: int) returns (t: Snoop)
    requires DbInv(s) && Queued(q) && k < |q| && !Halts(s, q, k, started) && Scanned(s, key.vid, p)
    ensures DbInv(t) && Scanned(t, key.vid, p) && KeepsRouterPort(s, t, key, p)
    ensures Tick(s, q, k, started).snoop == Tick(t, q, k + 1, true).snoop
  {
    t := AfterRecord(s, q, k);
    TickAfterRecord(s, q, k, started);
    RecordL2Everywhere(s, q, k, key, p);
    if ExpiresAt(q, k) && Known(s, q[k]) {
      FindsNamed(s, q[k]);
      ExpireKeepsRouterPort(s, Find(s.db, q[k].vid, q[k].gda, 0), q[k].uport, key, p);
    }
  }

  lemma {:induction false} WalkKeepsRouterPort(s: Snoop, q: seq<Leave>, k: nat, started: bool, key: L2Key, p: int)
    requires DbInv(s) && Queued(q) && k <= |q| && !Halts(s, q, k, started) && Scanned(s, key.vid, p)
    ensures KeepsRouterPort(s, Tick(s, q, k, started).snoop, key, p)
    decreases |q| - k
  {
    if k == |q| {
    } else {
      var t := RouterTurn(s, q, k, started, key, p);
      WalkKeepsRouterPort(t, q, k + 1, true, key, p);
    }
  }

  /** Of such a router port the tick takes nothing but whole entries. */
  lemma TickKeepsRouterPort(s: Snoop, q: seq<Leave>, key: L2Key, p: int)
    requires DbInv(s) && Queued(q) && Scanned(s, key.vid, p)
    ensures InL2(Tick(s, q, 0, false).snoop, key, p) <==> InL2(s, key, p) && key in Tick(s, q, 0, false).snoop.l2
    ensures key in Tick(s, q, 0, false).snoop.l2 ==> key in s.l2
  {
    if Halts(s, q, 0, false) {
      TickAfterRecord(s, q, 0, false);
    } else {
      WalkKeepsRouterPort(s, q, 0, false, key, p);
    }
  }

  // ---------- reports ----------

  /** The law of a report for every port: the entry of a new group also gets the router ports that the scan finds. */
  lemma UpdateL2Everywhere(s: Snoop, vid: nat, gda: Word, ports: PortSet, room: bool, key: L2Key, p: int)
    requires DbInv(s) && Reportable(vid, gda)
    ensures
      InL2(Update(s, vid, gda, ports, room).0, key, p) <==>
      if key != L2Key(vid, ComposeMac(gda)) || !Accepted(s, vid, gda, room) then InL2(s, key, p)
      else if Find(s.db, vid, gda, 0) < |s.db| then InL2(s, key, p) || (p in ports && EntryReached(s, vid, gda))
      else p in ports || (Scanned(s, vid, p) && p in ALL_PORTS)
  {
    if Find(s.db, vid, gda, 0) < |s.db| {
      KnownL2(s, vid, gda, ports, key, p);
    }
  }

  // ---------- the ageing ----------

  lemma {:induction false} AgeSummaryKeepsRouterPort(s: Snoop, i: nat, n: nat, p: int)
    requires DbInv(s) && i < n <= |s.db| && Scanned(s, s.db[i].vid, p)
    ensures p in AgeSummary(s, i, n)
  {
    AgedPartCounts(s, i, n, i);
    assert p in AgedPart(s, i, i);
  }

  lemma VisitKeepsRouterPort(s: Snoop, i: nat, k: L2Key, p: int)
    requires DbInv(s) && i < |s.db| && Scanned(s, k.vid, p)
    ensures
      var t := AgeSlot(s, i);
      DbInv(t) && Scanned(t, k.vid, p) && (InL2(t, k, p) <==> InL2(s, k, p) && k in t.l2) && (k in t.l2 ==> k in s.l2)
  {
    AgeSlotKeepsInv(s, i);
    if s.db[i].vid == k.vid {
      AgeSummaryKeepsRouterPort(s, i, |s.db|, p);
    }
  }

  /** The ageing, too, takes of such a router port nothing but whole entries. */
  lemma {:induction false} AgeKeepsRouterPort(s: Snoop, i: nat, k: L2Key, p: int)
    requires DbInv(s) && i <= |s.db| && Scanned(s, k.vid, p)
    ensures InL2(AgeFrom(s, i), k, p) <==> InL2(s, k, p) && k in AgeFrom(s, i).l2
    ensures k in AgeFrom(s, i).l2 ==> k in s.l2
    decreases |s.db| - i
  {
    if i == |s.db| {
    } else {
      VisitKeepsRouterPort(s, i, k, p);
      AgeKeepsRouterPort(AgeSlot(s, i), i + 1, k, p);
    }
  }

  // ---------- clearing the database ----------

  lemma {:induction false} ClearedScan(routers: seq<Router>, cleared: seq<Router>, vid: nat, i: nat)
    requires i <= |routers| == |cleared| && vid != 0
    requires forall j :: i <= j < |routers| ==> cleared[j] == ClearedRouter(routers[j])
    ensures RouterPorts(cleared, vid, i, |cleared|) == {}
    decreases |routers| - i
  {
    if i == |routers| {
    } else {
      ClearedScan(routers, cleared, vid, i + 1);
    }
  }

  /** Clearing the database leaves no group slot and no router record in use. */
  lemma ClearedIsUnused(s: Snoop, j: nat)
    requires WellFormed(s)
    ensures j < |s.db| ==> Cleared(s).db[j] == DbEntry(0, 0) && Cleared(s).lists[j] == PortLists({}, {})
    ensures j < |s.routers| ==> Cleared(s).routers[j].vid == 0
    ensures j < |s.routers| && s.routers[j].vid != 0 ==> Cleared(s).routers[j].uplist == {}
  {
  }

  /** Clearing the database forgets every router port of every VLAN. */
  lemma ClearedHasNoRouterPort(s: Snoop, vid: nat, p: int)
    requires WellFormed(s) && vid != 0
    ensures !RouterPort(Cleared(s), vid, p)
  {
    ClearedScan(s.routers, Cleared(s).routers, vid, 0);
  }
}
