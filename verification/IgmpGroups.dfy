/**
 The IGMP snooping group database, the shared layer-2 multicast entries and the expiry
 of one leave record (appl/igmpsnoop), as values.
 */
module IgmpGroups {
  import opened Uplists
  import opened Words

  const NUM_IGMP_GROUPS := 128
  const VID_LIMIT := 0x1000

  /** One igmpDB entry; gda is the group address, most significant octet first. */
  datatype DbEntry = DbEntry(gda: Word, vid: nat)

  /** One IPMCuplist entry, as sets of ports. */
  datatype PortLists = PortLists(age: set<int>, uplist: set<int>)

  /** One dynamic_router entry. */
  datatype Router = Router(vid: nat, uplist: set<int>)

  /** A set of user ports. */
  type PortSet = s: set<int> | s <= ALL_PORTS

  datatype L2Key = L2Key(vid: nat, mac: seq<byte>)

  datatype GroupId = GroupId(vid: nat, address: Word)

  datatype Snoop = Snoop(
    db: seq<DbEntry>,
    lists: seq<PortLists>,
    l2: map<L2Key, PortSet>,
    routers: seq<Router>,
    vlanCount: nat)

  /** The two tables run in parallel, and the router scan stays inside its table. */
  predicate WellFormed(s: Snoop) {
    |s.lists| == |s.db| && s.vlanCount <= |s.routers|
  }

  // ---------- the flag bits kept in the top octet of an address ----------

  /** Bit 0x80 of the first octet. */
  predicate IsValid(gda: Word) {
    gda / 0x8000_0000 % 2 == 1
  }

  /** Bit 0x40 of the first octet. */
  predicate IsPioneer(gda: Word) {
    gda / 0x4000_0000 % 2 == 1
  }

  /** gda & IGMPDB_MASK: everything but the pioneer bit. */
  function Address(gda: Word): Word {
    if IsPioneer(gda) then gda - 0x4000_0000 else gda
  }

  /** The first octet |= 0xc0. */
  function ValidPioneer(gda: Word): Word {
    if IsValid(gda) then Address(gda) + 0x4000_0000 else Address(gda) + 0xC000_0000
  }

  /** gda & GDA_MASK */
  function Low23(gda: Word): nat {
    gda % 0x80_0000
  }

  /** compose_mc_mac */
  function ComposeMac(gda: Word): (mac: seq<byte>)
    ensures |mac| == 6
  {
    [0x01, 0x00, 0x5e,
     (gda / 0x1_0000 % 256 % 0x80) as byte, (gda / 0x100 % 256) as byte, (gda % 256) as byte]
  }

  lemma Low23Bytes(gda: Word)
    ensures Low23(gda) == gda / 0x1_0000 % 256 % 0x80 * 0x1_0000 + gda / 0x100 % 256 * 0x100 + gda % 256
  {
    var q, h, m, l := gda / 0x80_0000, gda / 0x1_0000, gda / 0x100, gda % 256;
    assert h % 256 % 0x80 == h - 0x80 * q by {
      assert h == 0x80 * q + gda % 0x80_0000 / 0x1_0000;
    }
    assert m % 256 == m - 256 * h;
  }

  /** Section 6.4 of RFC 1112: the low 23 bits of the group address behind the prefix 01-00-5E, in network order. */
  lemma MacHoldsLow23(gda: Word)
    ensures ComposeMac(gda)[..3] == [0x01, 0x00, 0x5e]
    ensures
      var m := ComposeMac(gda);
      m[3] as nat * 0x1_0000 + m[4] as nat * 0x100 + m[5] as nat == gda % 0x80_0000
  {
    Low23Bytes(gda);
  }

  /** The address comparison of are_pals decides exactly whether the MAC addresses agree. */
  lemma MacIsLow23(a: Word, b: Word)
    ensures ComposeMac(a) == ComposeMac(b) <==> Low23(a) == Low23(b)
  {
    Low23Bytes(a);
    Low23Bytes(b);
    var x, y := ComposeMac(a), ComposeMac(b);
    assert Low23(a) == x[3] as nat * 0x1_0000 + x[4] as nat * 0x100 + x[5] as nat;
    assert Low23(b) == y[3] as nat * 0x1_0000 + y[4] as nat * 0x100 + y[5] as nat;
    if Low23(a) == Low23(b) {
      assert x[5] == y[5] && x[4] == y[4] && x[3] == y[3];
    }
  }

  predicate IsMulticast(gda: Word) {
    0xE000_0000 <= gda <= 0xEFFF_FFFF
  }

  /** Section 6.4 of RFC 1112: 32 host groups share each Ethernet address. */
  lemma ThirtyTwoGroupsPerMac(a: Word, b: Word)
    requires IsMulticast(a) && IsMulticast(b)
    ensures ComposeMac(a) == ComposeMac(b) <==>
            exists k :: 0 <= k < 32 && b == 0xE000_0000 + k * 0x80_0000 + Low23(a)
  {
    MacIsLow23(a, b);
    var k := (b - 0xE000_0000) / 0x80_0000;
    assert 0 <= k < 32 && b == 0xE000_0000 + k * 0x80_0000 + Low23(b);
  }

  lemma AddressFacts(gda: Word)
    ensures Low23(Address(gda)) == Low23(gda)
    ensures Address(ValidPioneer(gda)) == if IsValid(gda) then Address(gda) else Address(gda) + 0x8000_0000
    ensures IsValid(ValidPioneer(gda)) && IsPioneer(ValidPioneer(gda)) && IsValid(gda) == IsValid(Address(gda))
    ensures Low23(ValidPioneer(gda)) == Low23(gda)
  {
  }

  // ---------- looking things up ----------

  predicate Names(e: DbEntry, vid: nat, gda: Word) {
    Address(gda) == Address(e.gda) && vid % VID_LIMIT == e.vid % VID_LIMIT
  }

  /** igmpDB_search from slot i on. */
  function Find(db: seq<DbEntry>, vid: nat, gda: Word, i: nat): (k: nat)
    requires i <= |db|
    ensures i <= k <= |db|
    ensures k < |db| ==> Names(db[k], vid, gda)
    ensures forall j :: i <= j < k ==> !Names(db[j], vid, gda)
    decreases |db| - i
  {
    if i == |db| || Names(db[i], vid, gda) then i else Find(db, vid, gda, i + 1)
  }

  /** are_pals2 */
  predicate Pals(a: DbEntry, b: DbEntry) {
    Low23(a.gda) == Low23(b.gda) && a.vid % VID_LIMIT == b.vid % VID_LIMIT
  }

  predicate ValidPal(db: seq<DbEntry>, i: int, j: int) {
    0 <= i < |db| && 0 <= j < |db| && j != i && IsValid(db[j].gda) && Pals(db[i], db[j])
  }

  /** The dynamic router ports of a VLAN, if its record is among entries i, ..., n-1. */
  function RouterPorts(routers: seq<Router>, vid: nat, i: nat, n: nat): set<int>
    requires i <= n <= |routers|
    decreases n - i
  {
    if i == n then {}
    else if routers[i].vid == vid then routers[i].uplist
    else RouterPorts(routers, vid, i + 1, n)
  }

  function L2KeyOf(e: DbEntry): L2Key {
    L2Key(e.vid, ComposeMac(e.gda))
  }

  function IdOf(e: DbEntry): GroupId {
    GroupId(e.vid, Address(e.gda))
  }

  // ---------- expiry of one leave record ----------

  /** Slot j is a valid pal of slot i, and the age bits of both hold the port (IPMCuplist_mob). */
  predicate ActivePalAt(s: Snoop, i: nat, j: int, u: int)
    requires WellFormed(s) && i < |s.db|
  {
    ValidPal(s.db, i, j) && u in s.lists[i].age && u in s.lists[j].age
  }

  predicate ActivePal(s: Snoop, i: nat, u: int)
    requires WellFormed(s) && i < |s.db|
  {
    exists j :: 0 <= j < |s.db| && ActivePalAt(s, i, j, u)
  }

  /** L2MCportbmp_remove: dynamic router ports stay. */
  function DropFromL2(s: Snoop, i: nat, u: int): Snoop
    requires WellFormed(s) && i < |s.db|
  {
    var k := L2KeyOf(s.db[i]);
    if u in RouterPorts(s.routers, s.db[i].vid, 0, |s.routers|) || k !in s.l2 then s
    else s.(l2 := s.l2[k := s.l2[k] - {u}])
  }

  /** IPMCuplist_remove */
  function DropFromLists(s: Snoop, i: nat, u: int): Snoop
    requires WellFormed(s) && i < |s.db|
  {
    s.(lists := s.lists[i := PortLists(s.lists[i].age - {u}, s.lists[i].uplist - {u})])
  }

  /** The lists of the valid pals of slot e among slots 0, ..., n-1, with their router ports. */
  function Summary(s: Snoop, e: nat, n: nat): set<int>
    requires WellFormed(s) && e < |s.db| && n <= |s.db|
  {
    if n == 0 then {}
    else Summary(s, e, n - 1) +
         if ValidPal(s.db, e, n - 1) then
           s.lists[n - 1].uplist + RouterPorts(s.routers, s.db[n - 1].vid, 0, s.vlanCount)
         else {}
  }

  function FirstPal(db: seq<DbEntry>, e: nat, i: nat): (k: nat)
    requires e < |db| && i <= |db|
    ensures i <= k <= |db|
    ensures k < |db| ==> ValidPal(db, e, k)
    ensures forall j :: i <= j < k ==> !ValidPal(db, e, j)
    decreases |db| - i
  {
    if i == |db| || ValidPal(db, e, i) then i else FirstPal(db, e, i + 1)
  }

  /** L2MCportbmp_update with L2MCportbmp_CAST. */
  function Cast(s: Snoop, e: nat, summary: set<int>): Snoop
    requires WellFormed(s) && e < |s.db|
  {
    var k := L2KeyOf(s.db[e]);
    if k in s.l2 then s.(l2 := s.l2[k := s.l2[k] * summary]) else s
  }

  function Erase(s: Snoop, e: nat): Snoop
    requires WellFormed(s) && e < |s.db|
  {
    var k := L2Key(s.db[e].vid % VID_LIMIT, ComposeMac(s.db[e].gda));
    s.(l2 := if IsPioneer(s.db[e].gda) then s.l2 - {k} else s.l2,
       db := s.db[e := s.db[e].(gda := 0)],
       lists := s.lists[e := PortLists({}, {})])
  }

  /** The pal's record moves to slot e and becomes the pioneer; its old slot is freed. */
  function TakeOver(s: Snoop, e: nat, pal: nat): Snoop
    requires WellFormed(s) && e < |s.db| && pal < |s.db| && pal != e
  {
    s.(db := s.db[e := DbEntry(ValidPioneer(s.db[pal].gda), s.db[pal].vid)][pal := s.db[pal].(gda := 0)],
       lists := s.lists[e := s.lists[pal]][pal := PortLists({}, {})])
  }

  /** igmpsnoop_IPMCentry_remove */
  function RemoveEntry(s: Snoop, e: nat): Snoop
    requires WellFormed(s) && e < |s.db|
  {
    if IsValid(s.db[e].gda) && IsPioneer(s.db[e].gda) then
      var c := Cast(s, e, Summary(s, e, |s.db|));
      var pal := FirstPal(s.db, e, 0);
      if pal == |s.db| then Erase(c, e) else TakeOver(c, e, pal)
    else Erase(s, e)
  }

  /** The port leaves the layer-2 entry unless a pal is active on it, then the group's own lists. */
  function StrikePort(s: Snoop, i: nat, u: int): Snoop
    requires WellFormed(s) && i < |s.db|
  {
    DropFromLists(if ActivePal(s, i, u) then s else DropFromL2(s, i, u), i, u)
  }

  /** What the tick does for a leave record of slot i and port u that has run out. */
  function Expire(s: Snoop, i: nat, u: int): (t: Snoop)
    requires WellFormed(s) && i < |s.db|
    ensures WellFormed(t) && |t.db| == |s.db| && t.routers == s.routers && t.vlanCount == s.vlanCount
  {
    var t := StrikePort(s, i, u);
    if t.lists[i].uplist == {} then RemoveEntry(t, i) else t
  }

  // ---------- clearing the database ----------

  /** The keys of the pioneers among slots 0, ..., n-1. */
  function PioneerKeys(db: seq<DbEntry>, n: nat): set<L2Key>
    requires n <= |db|
  {
    if n == 0 then {}
    else PioneerKeys(db, n - 1) +
         if IsPioneer(db[n - 1].gda) then {L2Key(db[n - 1].vid % VID_LIMIT, ComposeMac(db[n - 1].gda))} else {}
  }

  /** A router record is only touched if it is in use. */
  function ClearedRouter(r: Router): Router {
    if r.vid != 0 then Router(0, {}) else r
  }

  /** The group, list and router part of igmpsnoop_database_init. */
  function Cleared(s: Snoop): Snoop
    requires WellFormed(s)
  {
    Snoop(seq(|s.db|, _ => DbEntry(0, 0)), seq(|s.db|, _ => PortLists({}, {})), s.l2 - PioneerKeys(s.db, |s.db|),
          seq(|s.routers|, i requires 0 <= i < |s.routers| => ClearedRouter(s.routers[i])), s.vlanCount)
  }

  lemma {:induction false} PioneerKeysAre(db: seq<DbEntry>, n: nat, k: L2Key)
    requires n <= |db| && forall j :: 0 <= j < |db| ==> db[j].vid < VID_LIMIT
    ensures k in PioneerKeys(db, n) <==> exists j :: 0 <= j < n && IsPioneer(db[j].gda) && L2KeyOf(db[j]) == k
  {
    if n == 0 {
    } else {
      PioneerKeysAre(db, n - 1, k);
    }
  }

  /** No group is left, and of the layer-2 entries exactly those that no pioneer stood for. */
  lemma ClearedKeeps(s: Snoop, k: L2Key, p: int)
    requires DbInv(s)
    ensures DbInv(Cleared(s)) && Holders(Cleared(s), k, p) == {}
    ensures k in Cleared(s).l2 <==>
            k in s.l2 && !exists j :: 0 <= j < |s.db| && IsPioneer(s.db[j].gda) && L2KeyOf(s.db[j]) == k
  {
    assert !IsValid(0);
    PioneerKeysAre(s.db, |s.db|, k);
    assert forall j :: !UsesAt(Cleared(s), false, j, k, p);
  }

  // ---------- the meaning: which groups use a layer-2 entry ----------

  /** Slot j is a group that shares entry k and has the port in its list, or in its age bits. */
  predicate UsesAt(s: Snoop, aged: bool, j: int, k: L2Key, p: int) {
    WellFormed(s) && 0 <= j < |s.db| && IsValid(s.db[j].gda) && L2KeyOf(s.db[j]) == k &&
    p in if aged then s.lists[j].age else s.lists[j].uplist
  }

  function Users(s: Snoop, aged: bool, k: L2Key, p: int): set<GroupId> {
    set j | 0 <= j < |s.db| && UsesAt(s, aged, j, k, p) :: IdOf(s.db[j])
  }

  /** The groups that share entry k and have the port in their list. */
  function Holders(s: Snoop, k: L2Key, p: int): set<GroupId> {
    Users(s, false, k, p)
  }

  /** Those of them that have a report for the port since the last ageing. */
  function Actives(s: Snoop, k: L2Key, p: int): set<GroupId> {
    Users(s, true, k, p)
  }

  predicate InL2(s: Snoop, k: L2Key, p: int) {
    k in s.l2 && p in s.l2[k]
  }

  predicate RouterPort(s: Snoop, vid: nat, p: int) {
    p in RouterPorts(s.routers, vid, 0, |s.routers|)
  }

  /** A router port that is found among the first vlanCount records, the only ones the summaries look at. */
  predicate Scanned(s: Snoop, vid: nat, p: int)
    requires WellFormed(s)
  {
    p in RouterPorts(s.routers, vid, 0, s.vlanCount)
  }

  /** Router ports apart, the layer-2 entry forwards to the port exactly if some group wants it. */
  predicate Agrees(s: Snoop, k: L2Key, p: int) {
    InL2(s, k, p) <==> Holders(s, k, p) != {}
  }

  predicate GroupAt(s: Snoop, j: int) {
    0 <= j < |s.db| && IsValid(s.db[j].gda)
  }

  /** The groups of the database, whether or not they still have a port. */
  function Groups(s: Snoop): set<GroupId> {
    set j | 0 <= j < |s.db| && GroupAt(s, j) :: IdOf(s.db[j])
  }

  /** 12-bit VLAN ids, age bits only for listed ports, no group twice. */
  ghost predicate DbInv(s: Snoop) {
    WellFormed(s) &&
    (forall j {:trigger s.db[j]} :: 0 <= j < |s.db| ==> s.db[j].vid < VID_LIMIT) &&
    (forall j {:trigger s.lists[j]} :: 0 <= j < |s.db| ==> s.lists[j].age <= s.lists[j].uplist) &&
    forall i, j :: 0 <= i < j < |s.db| && IsValid(s.db[i].gda) && IsValid(s.db[j].gda) ==>
      IdOf(s.db[i]) != IdOf(s.db[j])
  }

  lemma PalsShareKey(a: DbEntry, b: DbEntry)
    requires a.vid < VID_LIMIT && b.vid < VID_LIMIT
    ensures Pals(a, b) <==> L2KeyOf(a) == L2KeyOf(b)
  {
    MacIsLow23(a.gda, b.gda);
  }

  // ---------- each part of an expiry ----------

  function Swapped(j: int, a: int, b: int): int {
    if j == a then b else if j == b then a else j
  }

  /** Slot j of s is a user that slot Swapped(j) of t carries on. */
  predicate CarriedAt(s: Snoop, t: Snoop, aged: bool, k: L2Key, p: int, a: int, b: int, j: int) {
    UsesAt(s, aged, j, k, p) ==>
      UsesAt(t, aged, Swapped(j, a, b), k, p) && IdOf(t.db[Swapped(j, a, b)]) == IdOf(s.db[j])
  }

  lemma CarriedOver(s: Snoop, t: Snoop, aged: bool, k: L2Key, p: int, gone: set<GroupId>, a: int, b: int)
    requires forall j :: 0 <= j < |s.db| && IdOf(s.db[j]) !in gone ==> CarriedAt(s, t, aged, k, p, a, b, j)
    ensures Users(s, aged, k, p) - gone <= Users(t, aged, k, p)
  {
    forall id | id in Users(s, aged, k, p) && id !in gone ensures id in Users(t, aged, k, p) {
      var j :| 0 <= j < |s.db| && UsesAt(s, aged, j, k, p) && IdOf(s.db[j]) == id;
      assert CarriedAt(s, t, aged, k, p, a, b, j);
    }
  }

  lemma DropFromListsView(s: Snoop, i: nat, u: int, aged: bool, k: L2Key, p: int)
    requires DbInv(s) && i < |s.db| && IsValid(s.db[i].gda)
    ensures Users(DropFromLists(s, i, u), aged, k, p) == Users(s, aged, k, p) - (if p == u then {IdOf(s.db[i])} else {})
  {
    var t, gone := DropFromLists(s, i, u), if p == u then {IdOf(s.db[i])} else {};
    CarriedOver(s, t, aged, k, p, gone, 0, 0);
    CarriedOver(t, s, aged, k, p, {}, 0, 0);
  }

  lemma EraseView(s: Snoop, e: nat, aged: bool, k: L2Key, p: int)
    requires DbInv(s) && e < |s.db| && s.lists[e] == PortLists({}, {})
    ensures Users(Erase(s, e), aged, k, p) == Users(s, aged, k, p)
  {
    assert !IsValid(0);
    CarriedOver(s, Erase(s, e), aged, k, p, {}, 0, 0);
    CarriedOver(Erase(s, e), s, aged, k, p, {}, 0, 0);
  }

  lemma EraseKeepsInv(s: Snoop, e: nat)
    requires DbInv(s) && e < |s.db|
    ensures DbInv(Erase(s, e))
  {
    assert !IsValid(0);
  }

  lemma TakeOverKeepsInv(s: Snoop, e: nat, pal: nat)
    requires DbInv(s) && ValidPal(s.db, e, pal)
    ensures DbInv(TakeOver(s, e, pal))
  {
    AddressFacts(s.db[pal].gda);
    assert !IsValid(0);
  }

  lemma TakeOverView(s: Snoop, e: nat, pal: nat, aged: bool, k: L2Key, p: int)
    requires DbInv(s) && ValidPal(s.db, e, pal) && s.lists[e] == PortLists({}, {})
    ensures Users(TakeOver(s, e, pal), aged, k, p) == Users(s, aged, k, p)
  {
    var t := TakeOver(s, e, pal);
    assert IdOf(t.db[e]) == IdOf(s.db[pal]) && L2KeyOf(t.db[e]) == L2KeyOf(s.db[pal]) && IsValid(t.db[e].gda) by {
      AddressFacts(s.db[pal].gda);
      MacIsLow23(t.db[e].gda, s.db[pal].gda);
    }
    assert !IsValid(0);
    CarriedOver(s, t, aged, k, p, {}, e, pal);
    CarriedOver(t, s, aged, k, p, {}, e, pal);
  }

  // ---------- router ports ----------

  /** What the shorter scan finds, the full scan finds too. */
  lemma {:induction false} ShorterScan(routers: seq<Router>, vid: nat, i: nat, n: nat)
    requires i <= n <= |routers|
    ensures RouterPorts(routers, vid, i, n) <= RouterPorts(routers, vid, i, |routers|)
    decreases n - i
  {
    if i == n {
    } else {
      ShorterScan(routers, vid, i + 1, n);
    }
  }

  /** Away from router ports, the summary is what the pals' lists hold. */
  lemma {:induction false} SummaryMeans(s: Snoop, e: nat, n: nat, p: int)
    requires DbInv(s) && e < |s.db| && n <= |s.db| && s.db[e].vid < VID_LIMIT && !RouterPort(s, s.db[e].vid, p)
    ensures p in Summary(s, e, n) <==>
            exists j :: 0 <= j < n && ValidPal(s.db, e, j) && p in s.lists[j].uplist
  {
    if n == 0 {
    } else {
      SummaryMeans(s, e, n - 1, p);
      SummaryOneMore(s, e, n, p);
    }
  }

  lemma SummaryOneMore(s: Snoop, e: nat, n: nat, p: int)
    requires DbInv(s) && e < |s.db| && 1 <= n <= |s.db| && !RouterPort(s, s.db[e].vid, p)
    ensures p in Summary(s, e, n) <==>
            p in Summary(s, e, n - 1) || (ValidPal(s.db, e, n - 1) && p in s.lists[n - 1].uplist)
  {
    ShorterScan(s.routers, s.db[n - 1].vid, 0, s.vlanCount);
    assert ValidPal(s.db, e, n - 1) ==> s.db[n - 1].vid == s.db[e].vid;
  }

  lemma {:induction false} SummaryNeedsPals(s: Snoop, e: nat, n: nat)
    requires WellFormed(s) && e < |s.db| && n <= FirstPal(s.db, e, 0)
    ensures Summary(s, e, n) == {}
  {
    if n == 0 {
    } else {
      SummaryNeedsPals(s, e, n - 1);
    }
  }

  lemma SummaryIsHolders(s: Snoop, e: nat, p: int)
    requires DbInv(s) && e < |s.db| && IsValid(s.db[e].gda) && s.lists[e] == PortLists({}, {})
    requires !RouterPort(s, s.db[e].vid, p)
    ensures p in Summary(s, e, |s.db|) <==> Holders(s, L2KeyOf(s.db[e]), p) != {}
  {
    var k := L2KeyOf(s.db[e]);
    SummaryMeans(s, e, |s.db|, p);
    if j :| 0 <= j < |s.db| && ValidPal(s.db, e, j) && p in s.lists[j].uplist {
      PalsShareKey(s.db[e], s.db[j]);
      assert UsesAt(s, false, j, k, p);
      assert IdOf(s.db[j]) in Holders(s, k, p);
    }
    if id :| id in Holders(s, k, p) {
      var j :| 0 <= j < |s.db| && UsesAt(s, false, j, k, p) && IdOf(s.db[j]) == id;
      PalsShareKey(s.db[e], s.db[j]);
      assert ValidPal(s.db, e, j);
    }
  }

  // ---------- removing an emptied entry ----------

  lemma RemoveEntryKeepsInv(s: Snoop, e: nat)
    requires DbInv(s) && e < |s.db| && s.lists[e] == PortLists({}, {})
    ensures DbInv(RemoveEntry(s, e))
  {
    if IsValid(s.db[e].gda) && IsPioneer(s.db[e].gda) {
      var c := Cast(s, e, Summary(s, e, |s.db|));
      assert DbInv(c);
      if FirstPal(s.db, e, 0) < |s.db| {
        TakeOverKeepsInv(c, e, FirstPal(s.db, e, 0));
      } else {
        EraseKeepsInv(c, e);
      }
    } else {
      EraseKeepsInv(s, e);
    }
  }

  lemma RemoveEntryView(s: Snoop, e: nat, aged: bool, k: L2Key, p: int)
    requires DbInv(s) && e < |s.db| && s.lists[e] == PortLists({}, {})
    ensures Users(RemoveEntry(s, e), aged, k, p) == Users(s, aged, k, p)
  {
    if IsValid(s.db[e].gda) && IsPioneer(s.db[e].gda) {
      var c := Cast(s, e, Summary(s, e, |s.db|));
      CarriedOver(s, c, aged, k, p, {}, 0, 0);
      CarriedOver(c, s, aged, k, p, {}, 0, 0);
      if FirstPal(s.db, e, 0) < |s.db| {
        TakeOverView(c, e, FirstPal(s.db, e, 0), aged, k, p);
      } else {
        EraseView(c, e, aged, k, p);
      }
    } else {
      EraseView(s, e, aged, k, p);
    }
  }

  /** The layer-2 entry only loses ports that no group wants any more. */
  lemma RemoveEntryL2(s: Snoop, e: nat, k: L2Key, p: int)
    requires DbInv(s) && e < |s.db| && IsValid(s.db[e].gda) && s.lists[e] == PortLists({}, {})
    requires !RouterPort(s, k.vid, p)
    ensures k != L2KeyOf(s.db[e]) ==> (InL2(RemoveEntry(s, e), k, p) <==> InL2(s, k, p))
    ensures InL2(RemoveEntry(s, e), k, p) ==> InL2(s, k, p)
    ensures Holders(s, k, p) != {} ==> (InL2(RemoveEntry(s, e), k, p) <==> InL2(s, k, p))
  {
    if k == L2KeyOf(s.db[e]) {
      SummaryIsHolders(s, e, p);
      if FirstPal(s.db, e, 0) == |s.db| {
        SummaryNeedsPals(s, e, |s.db|);
      }
    }
    assert L2Key(s.db[e].vid % VID_LIMIT, ComposeMac(s.db[e].gda)) == L2KeyOf(s.db[e]);
    assert Holders(s, k, p) != {} && k == L2KeyOf(s.db[e]) && !IsPioneer(s.db[e].gda) ==>
        RemoveEntry(s, e).l2 == s.l2;
  }

  lemma EraseGroups(s: Snoop, e: nat)
    requires DbInv(s) && GroupAt(s, e)
    ensures Groups(Erase(s, e)) == Groups(s) - {IdOf(s.db[e])}
  {
    var t := Erase(s, e);
    assert !IsValid(0);
    forall id | id in Groups(s) && id != IdOf(s.db[e]) ensures id in Groups(t) {
      var j :| 0 <= j < |s.db| && GroupAt(s, j) && IdOf(s.db[j]) == id;
      assert GroupAt(t, j);
    }
    forall id | id in Groups(t) ensures id in Groups(s) && id != IdOf(s.db[e]) {
      var j :| 0 <= j < |t.db| && GroupAt(t, j) && IdOf(t.db[j]) == id;
      assert GroupAt(s, j);
    }
  }

  lemma TakeOverGroups(s: Snoop, e: nat, pal: nat)
    requires DbInv(s) && GroupAt(s, e) && ValidPal(s.db, e, pal)
    ensures Groups(TakeOver(s, e, pal)) == Groups(s) - {IdOf(s.db[e])}
  {
    var t := TakeOver(s, e, pal);
    AddressFacts(s.db[pal].gda);
    assert !IsValid(0);
    forall id | id in Groups(s) && id != IdOf(s.db[e]) ensures id in Groups(t) {
      var j :| 0 <= j < |s.db| && GroupAt(s, j) && IdOf(s.db[j]) == id;
      assert GroupAt(t, if j == pal then e else j);
    }
    forall id | id in Groups(t) ensures id in Groups(s) && id != IdOf(s.db[e]) {
      var j :| 0 <= j < |t.db| && GroupAt(t, j) && IdOf(t.db[j]) == id;
      assert GroupAt(s, if j == e then pal else j);
    }
  }

  // ---------- one expiry ----------

  lemma ActivePalMeans(s: Snoop, i: nat, u: int)
    requires DbInv(s) && i < |s.db| && IsValid(s.db[i].gda)
    ensures
      var k, id := L2KeyOf(s.db[i]), IdOf(s.db[i]);
      ActivePal(s, i, u) <==> id in Actives(s, k, u) && Actives(s, k, u) - {id} != {}
  {
    var k, id := L2KeyOf(s.db[i]), IdOf(s.db[i]);
    if j :| 0 <= j < |s.db| && ActivePalAt(s, i, j, u) {
      PalsShareKey(s.db[i], s.db[j]);
      assert UsesAt(s, true, i, k, u) && UsesAt(s, true, j, k, u);
      assert IdOf(s.db[j]) in Actives(s, k, u) - {id};
    }
    if other :| id in Actives(s, k, u) && other in Actives(s, k, u) - {id} {
      var i' :| 0 <= i' < |s.db| && UsesAt(s, true, i', k, u) && IdOf(s.db[i']) == id;
      assert i' == i;
      var j :| 0 <= j < |s.db| && UsesAt(s, true, j, k, u) && IdOf(s.db[j]) == other;
      PalsShareKey(s.db[i], s.db[j]);
      assert ActivePalAt(s, i, j, u);
    }
  }

  lemma StrikePortView(s: Snoop, i: nat, u: int, aged: bool, k: L2Key, p: int)
    requires DbInv(s) && i < |s.db| && IsValid(s.db[i].gda)
    ensures Users(StrikePort(s, i, u), aged, k, p) == Users(s, aged, k, p) - (if p == u then {IdOf(s.db[i])} else {})
  {
    var kept := if ActivePal(s, i, u) then s else DropFromL2(s, i, u);
    CarriedOver(s, kept, aged, k, p, {}, 0, 0);
    CarriedOver(kept, s, aged, k, p, {}, 0, 0);
    DropFromListsView(kept, i, u, aged, k, p);
  }

  lemma StrikePortKeepsInv(s: Snoop, i: nat, u: int)
    requires DbInv(s) && i < |s.db|
    ensures DbInv(StrikePort(s, i, u))
  {
  }

  lemma ExpireKeepsInv(s: Snoop, i: nat, u: int)
    requires DbInv(s) && i < |s.db|
    ensures DbInv(Expire(s, i, u))
  {
    StrikePortKeepsInv(s, i, u);
    if StrikePort(s, i, u).lists[i].uplist == {} {
      RemoveEntryKeepsInv(StrikePort(s, i, u), i);
    }
  }

  /** An expiry takes the port from this one group and touches no other membership. */
  lemma ExpireView(s: Snoop, i: nat, u: int, aged: bool, k: L2Key, p: int)
    requires DbInv(s) && i < |s.db| && IsValid(s.db[i].gda)
    ensures Users(Expire(s, i, u), aged, k, p) == Users(s, aged, k, p) - (if p == u then {IdOf(s.db[i])} else {})
  {
    var t := StrikePort(s, i, u);
    StrikePortView(s, i, u, aged, k, p);
    StrikePortKeepsInv(s, i, u);
    if t.lists[i].uplist == {} {
      RemoveEntryView(t, i, aged, k, p);
    }
  }

  /** An expiry makes a group unknown exactly if it takes its last port. */
  lemma ExpireGroups(s: Snoop, i: nat, u: int)
    requires DbInv(s) && i < |s.db| && IsValid(s.db[i].gda)
    ensures Groups(Expire(s, i, u)) ==
            Groups(s) - if s.lists[i].uplist - {u} == {} then {IdOf(s.db[i])} else {}
  {
    var t := StrikePort(s, i, u);
    StrikePortKeepsInv(s, i, u);
    assert Groups(t) == Groups(s) by {
      assert t.db == s.db;
      assert forall j :: GroupAt(t, j) <==> GroupAt(s, j);
    }
    if t.lists[i].uplist == {} {
      assert GroupAt(t, i);
      if IsPioneer(t.db[i].gda) {
        var c := Cast(t, i, Summary(t, i, |t.db|));
        assert DbInv(c) && c.db == t.db && GroupAt(c, i);
        assert Groups(c) == Groups(t) by {
          assert forall j :: GroupAt(c, j) <==> GroupAt(t, j);
        }
        if FirstPal(t.db, i, 0) < |t.db| {
          TakeOverGroups(c, i, FirstPal(t.db, i, 0));
        } else {
          EraseGroups(c, i);
        }
      } else {
        EraseGroups(t, i);
      }
    }
  }

  lemma StrikePortL2(s: Snoop, i: nat, u: int, k: L2Key, p: int)
    requires DbInv(s) && i < |s.db| && IsValid(s.db[i].gda) && !RouterPort(s, k.vid, p)
    ensures
      var id, after := IdOf(s.db[i]), InL2(StrikePort(s, i, u), k, p);
      if p == u && k == L2KeyOf(s.db[i]) then
        after <==> InL2(s, k, p) && id in Actives(s, k, p) && Actives(s, k, p) - {id} != {}
      else after <==> InL2(s, k, p)
  {
    ActivePalMeans(s, i, u);
  }

  /**
   What an expiry does to the shared layer-2 entries: the group's own entry keeps the port
   exactly if the group and some other group on that entry have it in their age bits.
   */
  lemma ExpireL2(s: Snoop, i: nat, u: int, k: L2Key, p: int)
    requires DbInv(s) && i < |s.db| && IsValid(s.db[i].gda) && !RouterPort(s, k.vid, p)
    requires InL2(s, k, p) ==> Holders(s, k, p) != {}
    ensures
      var id, after := IdOf(s.db[i]), InL2(Expire(s, i, u), k, p);
      if p == u && k == L2KeyOf(s.db[i]) then
        after <==> InL2(s, k, p) && id in Actives(s, k, p) && Actives(s, k, p) - {id} != {}
      else after <==> InL2(s, k, p)
  {
    var t := StrikePort(s, i, u);
    StrikePortL2(s, i, u, k, p);
    StrikePortView(s, i, u, false, k, p);
    StrikePortKeepsInv(s, i, u);
    ActivesHold(s, k, p);
    if t.lists[i].uplist == {} {
      assert t.db == s.db && t.routers == s.routers;
      RemoveEntryL2(t, i, k, p);
      if k == L2KeyOf(s.db[i]) && p == u {
        var id := IdOf(s.db[i]);
        assert Actives(s, k, p) - {id} <= Holders(t, k, p);
      }
    }
  }

  /** A group counts only towards its own entry. */
  lemma IdHasKey(s: Snoop, i: nat, aged: bool, k: L2Key, p: int)
    requires DbInv(s) && i < |s.db| && IsValid(s.db[i].gda) && k != L2KeyOf(s.db[i])
    ensures IdOf(s.db[i]) !in Users(s, aged, k, p)
  {
  }

  lemma ActivesHold(s: Snoop, k: L2Key, p: int)
    requires DbInv(s)
    ensures Actives(s, k, p) <= Holders(s, k, p)
  {
    forall id | id in Actives(s, k, p) ensures id in Holders(s, k, p) {
      var j :| 0 <= j < |s.db| && UsesAt(s, true, j, k, p) && IdOf(s.db[j]) == id;
      assert UsesAt(s, false, j, k, p);
    }
  }
}
