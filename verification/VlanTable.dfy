/**
 The VLAN database as a value: what each board/brd_vlan.c operation does to it, and
 the laws that hold over every run of operations. VlanDatabase.dfy holds the linked
 list and the loops, each proved to do what is said here.
 */
module VlanTable {
  import opened Sequences
  import opened Uplists

  const VLAN_DEFAULT := 1
  const BOARD_MAX_NUM_OF_QVLANS := 128
  const SOC_MIN_1QVLAN_ID := 1
  const SOC_MAX_1QVLAN_ID := 4094

  datatype VlanType = VtNone | VtPortBased | VtDot1q | VtCount

  datatype Status = SysOk | ErrParameter | ErrState | ErrFull | ErrExists | ErrNotFound

  datatype Vlan = Vlan(id: nat, uplist: Uplist)

  /** One entry of the switch's 802.1Q table. */
  datatype QEntry = QEntry(members: set<int>, tagged: set<int>)

  /** Tables indexed by user port; slot 0 is not used. */
  type PortSets = m: seq<set<nat>> | |m| == UPORT_COUNT + 1 witness seq(UPORT_COUNT + 1, _ => {})
  type PortMasks = m: seq<set<int>> | |m| == UPORT_COUNT + 1 witness seq(UPORT_COUNT + 1, _ => {})
  type PortIds = m: seq<nat> | |m| == UPORT_COUNT + 1 witness seq(UPORT_COUNT + 1, _ => 0)

  /**
   Software list, per-port VLAN index (member_of_pvlan_bmp), per-port hardware egress
   mask, hardware 802.1Q table and per-port default VLAN.
   */
  datatype Table = Table(
    vtype: VlanType,
    maxCount: nat,
    vlans: seq<Vlan>,
    memberOf: PortSets,
    egress: PortMasks,
    hw: map<nat, QEntry>,
    pvid: PortIds)

  // ---------- looking things up ----------

  /** The walk down the list from position i. */
  function IndexFrom(vlans: seq<Vlan>, id: nat, i: nat): (k: nat)
    requires i <= |vlans|
    ensures i <= k <= |vlans|
    ensures k < |vlans| ==> vlans[k].id == id
    ensures forall j :: i <= j < k ==> vlans[j].id != id
    decreases |vlans| - i
  {
    if i == |vlans| || vlans[i].id == id then i else IndexFrom(vlans, id, i + 1)
  }

  /** Position of the first VLAN with this id, or the length of the list. */
  function IndexOf(vlans: seq<Vlan>, id: nat): (k: nat)
    ensures k <= |vlans|
    ensures k < |vlans| ==> vlans[k].id == id
    ensures forall j :: 0 <= j < k ==> vlans[j].id != id
  {
    IndexFrom(vlans, id, 0)
  }

  predicate Has(vlans: seq<Vlan>, id: nat) {
    IndexOf(vlans, id) < |vlans|
  }

  predicate DistinctIds(vlans: seq<Vlan>) {
    forall i, j :: 0 <= i < j < |vlans| ==> vlans[i].id != vlans[j].id
  }

  function Ids(vlans: seq<Vlan>): seq<nat> {
    seq(|vlans|, i requires 0 <= i < |vlans| => vlans[i].id)
  }

  // ---------- reference meaning of the derived tables ----------

  /** The VLANs whose port list holds port p. */
  function VlansOf(vlans: seq<Vlan>, p: int): set<nat> {
    set i | 0 <= i < |vlans| && p in Ports(vlans[i].uplist) :: vlans[i].id
  }

  /** VLAN number i of the list holds both ports. */
  predicate SharedAt(vlans: seq<Vlan>, i: int, p: int, q: int) {
    0 <= i < |vlans| && p in Ports(vlans[i].uplist) && q in Ports(vlans[i].uplist)
  }

  ghost predicate Share(vlans: seq<Vlan>, p: int, q: int) {
    exists i :: SharedAt(vlans, i, p, q)
  }

  /** The ports that share some VLAN with port p. */
  ghost function Reach(vlans: seq<Vlan>, p: int): set<int> {
    set q | q in ALL_PORTS && Share(vlans, p, q)
  }

  /** Port p's index word and hardware mask are exactly what the list says. */
  ghost predicate DerivedAt(t: Table, p: int) {
    p in ALL_PORTS && t.memberOf[p] == VlansOf(t.vlans, p) && t.egress[p] == Reach(t.vlans, p)
  }

  ghost predicate Derived(t: Table) {
    forall p {:trigger DerivedAt(t, p)} :: p in ALL_PORTS ==> DerivedAt(t, p)
  }

  // ---------- the operations ----------

  function Reset(t: Table, garbage: Uplist): Table {
    var ul := if t.vlans == [] then garbage else t.vlans[0].uplist;
    var dropped := if t.vtype == VtDot1q && t.vlans != [] then
                     set i | 1 <= i < |t.vlans| :: t.vlans[i].id
                   else {};
    Table(VtNone, 1, [Vlan(VLAN_DEFAULT, AddAllPorts(ul))],
          t.memberOf[..1] + seq(UPORT_COUNT, _ => {VLAN_DEFAULT as nat}),
          seq(UPORT_COUNT + 1, _ => ALL_PORTS),
          (t.hw - dropped)[VLAN_DEFAULT := QEntry(ALL_PORTS, {})],
          seq(UPORT_COUNT + 1, _ => VLAN_DEFAULT as nat))
  }

  /** A port-based switch keeps one group per port and one for the uplink. */
  function MaxCountOf(ty: VlanType): nat {
    match ty
    case VtPortBased => UPORT_COUNT + 1
    case VtDot1q => BOARD_MAX_NUM_OF_QVLANS
    case VtNone => 1
    case VtCount => 0
  }

  function TypeSet(t: Table, ty: VlanType, garbage: Uplist): (Table, Status) {
    if ty == VtCount then (t, ErrParameter)
    else if t.vtype == ty then (t, SysOk)
    else (Reset(t, garbage).(vtype := ty, maxCount := MaxCountOf(ty)), SysOk)
  }

  function CreateStatus(t: Table, id: nat): Status {
    if t.vtype == VtDot1q && !(SOC_MIN_1QVLAN_ID <= id <= SOC_MAX_1QVLAN_ID) then ErrParameter
    else if t.vtype == VtPortBased && id > t.maxCount then ErrParameter
    else if !t.vtype.VtDot1q? && !t.vtype.VtPortBased? then ErrState
    else if |t.vlans| == t.maxCount then ErrFull
    else if Has(t.vlans, id) then ErrExists
    else SysOk
  }

  function Create(t: Table, id: nat): Table {
    if CreateStatus(t, id) != SysOk then t
    else t.(vlans := t.vlans + [Vlan(id, EMPTY_UPLIST)],
            hw := if t.vtype == VtDot1q then t.hw[id := QEntry({}, {})] else t.hw)
  }

  /** VLAN number i is one the index m names, is not VLAN id, and holds port q. */
  predicate ViaOther(vlans: seq<Vlan>, i: int, m: set<nat>, id: nat, q: int) {
    0 <= i < |vlans| && vlans[i].id != id && vlans[i].id in m && q in Ports(vlans[i].uplist)
  }

  /** Ports reachable through the VLANs other than id that the index m names. */
  function OthersUnion(vlans: seq<Vlan>, m: set<nat>, id: nat): set<int> {
    if vlans == [] then {}
    else
      var rest := vlans[..|vlans| - 1];
      var last := vlans[|vlans| - 1];
      OthersUnion(rest, m, id) + (if last.id != id && last.id in m then Ports(last.uplist) else {})
  }

  function NewMember(m: set<nat>, id: nat, inside: bool): set<nat> {
    if inside then m + {id} else m - {id}
  }

  /** The egress mask that brdimpl_pvlan_port_set writes for port p. */
  function NewEgress(vlans: seq<Vlan>, m: set<nat>, id: nat, u: Uplist, p: int): set<int> {
    (if p in Ports(u) then Ports(u) else {}) + OthersUnion(vlans, m, id)
  }

  /** The index words of ports 0, ..., n after the rebuild. */
  function MembersUpTo(m: PortSets, id: nat, u: Uplist, n: nat): (r: seq<set<nat>>)
    requires n <= UPORT_COUNT
    ensures |r| == n + 1
  {
    if n == 0 then [m[0]]
    else MembersUpTo(m, id, u, n - 1) + [NewMember(m[n], id, n in Ports(u))]
  }

  /** The egress masks of ports 0, ..., n after the rebuild. */
  function EgressUpTo(e: PortMasks, vlans: seq<Vlan>, m: PortSets, id: nat, u: Uplist, n: nat): (r: seq<set<int>>)
    requires n <= UPORT_COUNT
    ensures |r| == n + 1
  {
    if n == 0 then [e[0]]
    else EgressUpTo(e, vlans, m, id, u, n - 1)
         + [NewEgress(vlans, NewMember(m[n], id, n in Ports(u)), id, u, n)]
  }

  lemma {:induction false} RebuiltAt(e: PortMasks, vlans: seq<Vlan>, m: PortSets, id: nat, u: Uplist, n: nat, p: int)
    requires 1 <= p <= n <= UPORT_COUNT
    ensures MembersUpTo(m, id, u, n)[p] == NewMember(m[p], id, p in Ports(u))
    ensures EgressUpTo(e, vlans, m, id, u, n)[p] == NewEgress(vlans, NewMember(m[p], id, p in Ports(u)), id, u, p)
  {
    if p == n {
    } else {
      RebuiltAt(e, vlans, m, id, u, n - 1, p);
    }
  }

  function PvlanPortSet(t: Table, id: nat, u: Uplist): (Table, Status)
  {
    var k := IndexOf(t.vlans, id);
    if k == |t.vlans| then (t, ErrNotFound)
    else if t.vlans[k].uplist == u then (t, SysOk)
    else (t.(vlans := t.vlans[k := Vlan(id, u)],
               memberOf := MembersUpTo(t.memberOf, id, u, UPORT_COUNT),
               egress := EgressUpTo(t.egress, t.vlans, t.memberOf, id, u, UPORT_COUNT)), SysOk)
  }

  function Destroy(t: Table, id: nat): (Table, Status)
  {
    var (t1, rv) := if t.vtype == VtPortBased then PvlanPortSet(t, id, EMPTY_UPLIST) else (t, SysOk);
    if rv != SysOk then (t, rv)
    else
      var k := IndexOf(t1.vlans, id);
      if k == |t1.vlans| then (t1, ErrNotFound)
      else (t1.(vlans := RemoveAt(t1.vlans, k),
                hw := if t.vtype == VtDot1q then t1.hw - {id} else t1.hw), SysOk)
  }

  function QvlanPortSet(t: Table, id: nat, u: Uplist, tu: Uplist): (Table, Status) {
    if t.vtype != VtDot1q then (t, ErrState)
    else
      var k := IndexOf(t.vlans, id);
      if k == |t.vlans| then (t, ErrNotFound)
      else (t.(vlans := t.vlans[k := Vlan(id, u)],
               hw := t.hw[id := QEntry(Ports(u), Ports(tu) * Ports(u))]), SysOk)
  }

  // ---------- invariants ----------

  predicate IdInRange(ty: VlanType, maxCount: nat, id: nat) {
    match ty
    case VtPortBased => 1 <= id <= maxCount
    case VtDot1q => SOC_MIN_1QVLAN_ID <= id <= SOC_MAX_1QVLAN_ID
    case _ => id == VLAN_DEFAULT
  }

  ghost predicate ListInv(t: Table) {
    && DistinctIds(t.vlans)
    && t.maxCount == MaxCountOf(t.vtype)
    && |t.vlans| <= t.maxCount
    && forall i :: 0 <= i < |t.vlans| ==> IdInRange(t.vtype, t.maxCount, t.vlans[i].id)
  }

  /** In 802.1Q mode the switch knows every listed VLAN, with the listed members. */
  predicate HwAt(t: Table, i: int)
    requires 0 <= i < |t.vlans|
  {
    t.vlans[i].id in t.hw &&
    t.hw[t.vlans[i].id].members == Ports(t.vlans[i].uplist) &&
    t.hw[t.vlans[i].id].tagged <= t.hw[t.vlans[i].id].members
  }

  ghost predicate HwInv(t: Table) {
    forall i {:trigger HwAt(t, i)} :: 0 <= i < |t.vlans| ==> HwAt(t, i)
  }

  ghost predicate Inv(t: Table) {
    ListInv(t) && (t.vtype == VtDot1q ==> HwInv(t)) && (t.vtype == VtPortBased ==> Derived(t))
  }

  /** _brdimpl_vlan_init with persistence: an empty list and no VLAN type yet. */
  predicate Booted(t: Table) {
    t.vlans == [] && t.vtype == VtCount && t.maxCount == 0
  }

  // ---------- runs ----------

  datatype Op =
    | OpReset(garbage: Uplist)
    | OpTypeSet(ty: VlanType, garbage: Uplist)
    | OpCreate(id: nat)
    | OpDestroy(id: nat)
    | OpPvlanPortSet(id: nat, uplist: Uplist)
    | OpQvlanPortSet(id: nat, uplist: Uplist, tagged: Uplist)

  /**
   What the code asks of its callers: port-based ids start at 1, because the index
   uses bit id-1, and port-based members are set only in port-based mode.
   */
  predicate Legal(t: Table, op: Op) {
    match op
    case OpCreate(id) => t.vtype == VtPortBased ==> id >= 1
    case OpDestroy(id) => t.vtype == VtPortBased ==> id >= 1
    case OpPvlanPortSet(id, _) => t.vtype == VtPortBased && id >= 1
    case _ => true
  }

  function Step(t: Table, op: Op): Table
  {
    match op
    case OpReset(g) => Reset(t, g)
    case OpTypeSet(ty, g) => TypeSet(t, ty, g).0
    case OpCreate(id) => Create(t, id)
    case OpDestroy(id) => Destroy(t, id).0
    case OpPvlanPortSet(id, u) => PvlanPortSet(t, id, u).0
    case OpQvlanPortSet(id, u, tu) => QvlanPortSet(t, id, u, tu).0
  }

  /** The states of a run: each follows from the one before by a legal operation. */
  ghost predicate IsRun(states: seq<Table>, ops: seq<Op>) {
    && |states| == |ops| + 1
    && Booted(states[0])
    && forall k :: 0 <= k < |ops| ==>
         Legal(states[k], ops[k]) && states[k + 1] == Step(states[k], ops[k])
  }

  /** Some run leads to this state. */
  ghost predicate Reachable(t: Table) {
    exists states, ops :: IsRun(states, ops) && states[|ops|] == t
  }

  lemma BootedReachable(t: Table)
    requires Booted(t)
    ensures Reachable(t)
  {
    assert IsRun([t], []);
  }

  lemma StepReachable(t: Table, op: Op) returns (r: Table)
    requires Reachable(t) && Legal(t, op)
    ensures r == Step(t, op) && Reachable(r)
  {
    var states, ops :| IsRun(states, ops) && states[|ops|] == t;
    r := Step(t, op);
    var more, allOps := states + [r], ops + [op];
    forall k | 0 <= k < |allOps| ensures Legal(more[k], allOps[k]) && more[k + 1] == Step(more[k], allOps[k]) {
      assert k < |ops| ==> more[k] == states[k] && more[k + 1] == states[k + 1] && allOps[k] == ops[k];
    }
    assert IsRun(more, allOps);
  }

  // ---------- one step keeps the invariants ----------

  lemma ReachMeans(vlans: seq<Vlan>, p: int, q: int)
    ensures q in Reach(vlans, p) <==> Share(vlans, p, q)
  {
    if i :| SharedAt(vlans, i, p, q) {
      PortsMatches(vlans[i].uplist, q);
    }
  }

  lemma ResetDerivedAt(t: Table, g: Uplist, p: int)
    requires p in ALL_PORTS
    ensures DerivedAt(Reset(t, g), p)
  {
    var r := Reset(t, g);
    AddAllPortsHasAll(if t.vlans == [] then g else t.vlans[0].uplist);
    assert Ports(r.vlans[0].uplist) == ALL_PORTS;
    assert VlansOf(r.vlans, p) == {VLAN_DEFAULT as nat} by {
      assert r.vlans[0].id in VlansOf(r.vlans, p);
    }
    forall q | q in ALL_PORTS ensures q in Reach(r.vlans, p) {
      assert SharedAt(r.vlans, 0, p, q);
    }
  }

  lemma ResetKeepsInv(t: Table, g: Uplist)
    ensures Inv(Reset(t, g)) && Derived(Reset(t, g)) && HwInv(Reset(t, g))
    ensures VLAN_DEFAULT in Reset(t, g).hw && Reset(t, g).hw[VLAN_DEFAULT] == QEntry(ALL_PORTS, {})
  {
    var r := Reset(t, g);
    assert Derived(r) by {
      forall p | p in ALL_PORTS ensures DerivedAt(r, p) { ResetDerivedAt(t, g, p); }
    }
    assert HwInv(r) by {
      AddAllPortsHasAll(if t.vlans == [] then g else t.vlans[0].uplist);
      assert HwAt(r, 0);
    }
    assert ListInv(r);
  }

  lemma TypeSetKeepsInv(t: Table, ty: VlanType, g: Uplist)
    requires Inv(t)
    ensures Inv(TypeSet(t, ty, g).0)
  {
    if ty != VtCount && t.vtype != ty {
      var r, r' := Reset(t, g), TypeSet(t, ty, g).0;
      ResetKeepsInv(t, g);
      assert Derived(r') by {
        forall p | p in ALL_PORTS ensures DerivedAt(r', p) { assert DerivedAt(r, p); }
      }
      assert HwInv(r') by {
        assert HwAt(r, 0);
      }
      assert ListInv(r');
    }
  }

  /** A VLAN without ports adds nothing to either derived table. */
  lemma AppendEmptyKeepsDerived(vlans: seq<Vlan>, id: nat, p: int)
    ensures VlansOf(vlans + [Vlan(id, EMPTY_UPLIST)], p) == VlansOf(vlans, p)
    ensures Reach(vlans + [Vlan(id, EMPTY_UPLIST)], p) == Reach(vlans, p)
  {
    EmptyHasNoPorts();
    var more := vlans + [Vlan(id, EMPTY_UPLIST)];
    forall x | x in VlansOf(vlans, p) ensures x in VlansOf(more, p) {
      var i :| 0 <= i < |vlans| && p in Ports(vlans[i].uplist) && vlans[i].id == x;
      assert more[i] == vlans[i];
    }
    forall q: int ensures q in Reach(more, p) <==> q in Reach(vlans, p) {
      if i :| SharedAt(vlans, i, p, q) {
        assert SharedAt(more, i, p, q);
      }
      if i :| SharedAt(more, i, p, q) {
        assert SharedAt(vlans, i, p, q);
      }
    }
  }

  lemma CreateKeepsInv(t: Table, id: nat)
    requires Inv(t) && (t.vtype == VtPortBased ==> id >= 1)
    ensures Inv(Create(t, id))
  {
    if CreateStatus(t, id) == SysOk {
      var r := Create(t, id);
      EmptyHasNoPorts();
      forall p | p in ALL_PORTS && t.vtype == VtPortBased ensures DerivedAt(r, p) {
        assert DerivedAt(t, p);
        AppendEmptyKeepsDerived(t.vlans, id, p);
      }
      forall i | 0 <= i < |r.vlans| && t.vtype == VtDot1q ensures HwAt(r, i) {
        if i < |t.vlans| { assert HwAt(t, i); }
      }
    }
  }

  /** Replacing one VLAN's ports: the index bit flips, all other bits stay. */
  lemma SetMember(vlans: seq<Vlan>, k: nat, u: Uplist, p: int)
    requires DistinctIds(vlans) && k < |vlans|
    ensures VlansOf(vlans[k := Vlan(vlans[k].id, u)], p)
         == NewMember(VlansOf(vlans, p), vlans[k].id, p in Ports(u))
  {
    var id := vlans[k].id;
    var after := vlans[k := Vlan(id, u)];
    forall x: nat
      ensures x in VlansOf(after, p) <==> x in NewMember(VlansOf(vlans, p), id, p in Ports(u))
    {
      if x in VlansOf(after, p) {
        var i :| 0 <= i < |after| && p in Ports(after[i].uplist) && after[i].id == x;
        assert i == k || after[i] == vlans[i];
      }
      if x == id && p in Ports(u) {
        assert after[k].id == x && p in Ports(after[k].uplist);
      }
      if x in VlansOf(vlans, p) && x != id {
        var i :| 0 <= i < |vlans| && p in Ports(vlans[i].uplist) && vlans[i].id == x;
        assert after[i] == vlans[i];
      }
    }
  }

  lemma {:induction false} OthersUnionMeans(vlans: seq<Vlan>, m: set<nat>, id: nat, q: int)
    ensures q in OthersUnion(vlans, m, id) <==> exists i :: ViaOther(vlans, i, m, id, q)
  {
    if vlans == [] {
    } else {
      var n := |vlans| - 1;
      OthersUnionMeans(vlans[..n], m, id, q);
      if i :| ViaOther(vlans[..n], i, m, id, q) {
        assert ViaOther(vlans, i, m, id, q);
      }
      if i :| ViaOther(vlans, i, m, id, q) {
        assert i == n || ViaOther(vlans[..n], i, m, id, q);
      }
      if vlans[n].id != id && vlans[n].id in m && q in Ports(vlans[n].uplist) {
        assert ViaOther(vlans, n, m, id, q);
      }
    }
  }

  /** The mask built from the index is the union over the VLANs that hold the port. */
  lemma SetEgress(vlans: seq<Vlan>, k: nat, u: Uplist, p: int)
    requires DistinctIds(vlans) && k < |vlans|
    ensures
      var after := vlans[k := Vlan(vlans[k].id, u)];
      NewEgress(vlans, VlansOf(after, p), vlans[k].id, u, p) == Reach(after, p)
  {
    var id := vlans[k].id;
    var after := vlans[k := Vlan(id, u)];
    var m := VlansOf(after, p);
    forall q: int
      ensures q in NewEgress(vlans, m, id, u, p) <==> q in Reach(after, p)
    {
      ReachMeans(after, p, q);
      OthersUnionMeans(vlans, m, id, q);
      if i :| ViaOther(vlans, i, m, id, q) {
        var j :| 0 <= j < |after| && p in Ports(after[j].uplist) && after[j].id == vlans[i].id;
        assert j != k && after[j] == vlans[j] && i == j;
        assert SharedAt(after, j, p, q);
      }
      if p in Ports(u) && q in Ports(u) {
        assert SharedAt(after, k, p, q);
      }
      if i :| SharedAt(after, i, p, q) {
        if i != k {
          assert after[i] == vlans[i] && after[i].id in m;
          assert ViaOther(vlans, i, m, id, q);
        }
      }
    }
  }

  lemma PvlanPortSetDerivedAt(t: Table, k: nat, u: Uplist, p: int)
    requires DistinctIds(t.vlans) && k < |t.vlans| && p in ALL_PORTS
    requires DerivedAt(t, p) && k == IndexOf(t.vlans, t.vlans[k].id)
    ensures t.vlans[k].uplist != u ==> DerivedAt(PvlanPortSet(t, t.vlans[k].id, u).0, p)
  {
    SetMember(t.vlans, k, u, p);
    SetEgress(t.vlans, k, u, p);
    RebuiltAt(t.egress, t.vlans, t.memberOf, t.vlans[k].id, u, UPORT_COUNT, p);
  }

  lemma PvlanPortSetKeepsInv(t: Table, id: nat, u: Uplist)
    requires Inv(t) && t.vtype == VtPortBased
    ensures Inv(PvlanPortSet(t, id, u).0)
  {
    var k := IndexOf(t.vlans, id);
    var r := PvlanPortSet(t, id, u).0;
    if k < |t.vlans| && t.vlans[k].uplist != u {
      forall p | p in ALL_PORTS ensures DerivedAt(r, p) {
        assert DerivedAt(t, p);
        PvlanPortSetDerivedAt(t, k, u, p);
      }
    }
  }

  /** Dropping a VLAN that holds no port changes neither derived table. */
  lemma RemoveEmptyKeepsDerived(vlans: seq<Vlan>, k: nat, p: int)
    requires k < |vlans| && Ports(vlans[k].uplist) == {}
    ensures VlansOf(RemoveAt(vlans, k), p) == VlansOf(vlans, p)
    ensures Reach(RemoveAt(vlans, k), p) == Reach(vlans, p)
  {
    var less := RemoveAt(vlans, k);
    forall x: nat ensures x in VlansOf(less, p) <==> x in VlansOf(vlans, p) {
      if x in VlansOf(less, p) {
        var i :| 0 <= i < |less| && p in Ports(less[i].uplist) && less[i].id == x;
        assert less[i] == vlans[if i < k then i else i + 1];
      }
      if x in VlansOf(vlans, p) {
        var i :| 0 <= i < |vlans| && p in Ports(vlans[i].uplist) && vlans[i].id == x;
        assert vlans[i] == less[if i < k then i else i - 1];
      }
    }
    forall q: int ensures q in Reach(less, p) <==> q in Reach(vlans, p) {
      if i :| SharedAt(less, i, p, q) {
        assert SharedAt(vlans, if i < k then i else i + 1, p, q);
      }
      if i :| SharedAt(vlans, i, p, q) {
        assert SharedAt(less, if i < k then i else i - 1, p, q);
      }
    }
  }

  /** In port-based mode a VLAN is emptied before it leaves the list. */
  lemma DestroyEmptiesFirst(t: Table, id: nat) returns (e: Table, k: nat)
    requires Inv(t) && t.vtype == VtPortBased && Has(t.vlans, id)
    ensures e == PvlanPortSet(t, id, EMPTY_UPLIST).0 && Inv(e) && e.vtype == VtPortBased
    ensures k == IndexOf(t.vlans, id) == IndexOf(e.vlans, id)
    ensures |e.vlans| == |t.vlans| && e.vlans[k] == Vlan(id, EMPTY_UPLIST)
    ensures forall i :: 0 <= i < |t.vlans| && i != k ==> e.vlans[i] == t.vlans[i]
    ensures Destroy(t, id).0 == e.(vlans := RemoveAt(e.vlans, k)) && Destroy(t, id).1 == SysOk
  {
    e := PvlanPortSet(t, id, EMPTY_UPLIST).0;
    k := IndexOf(t.vlans, id);
    PvlanPortSetKeepsInv(t, id, EMPTY_UPLIST);
    assert e.vlans[k].id == id;
  }

  lemma RemoveKeepsListInv(t: Table, k: nat)
    requires ListInv(t) && k < |t.vlans|
    ensures ListInv(t.(vlans := RemoveAt(t.vlans, k)))
    ensures forall i :: 0 <= i < |t.vlans| - 1 ==>
              RemoveAt(t.vlans, k)[i] == t.vlans[if i < k then i else i + 1]
  {
  }

  lemma DestroyKeepsInv(t: Table, id: nat)
    requires Inv(t)
    ensures Inv(Destroy(t, id).0)
  {
    if Has(t.vlans, id) {
      var r := Destroy(t, id).0;
      if t.vtype == VtPortBased {
        var e, k := DestroyEmptiesFirst(t, id);
        RemoveKeepsListInv(e, k);
        EmptyHasNoPorts();
        forall p | p in ALL_PORTS ensures DerivedAt(r, p) {
          assert DerivedAt(e, p);
          RemoveEmptyKeepsDerived(e.vlans, k, p);
        }
      } else {
        var k := IndexOf(t.vlans, id);
        RemoveKeepsListInv(t, k);
        forall i | 0 <= i < |r.vlans| && t.vtype == VtDot1q ensures HwAt(r, i) {
          assert HwAt(t, if i < k then i else i + 1);
        }
      }
    }
  }

  lemma QvlanPortSetKeepsInv(t: Table, id: nat, u: Uplist, tu: Uplist)
    requires Inv(t)
    ensures Inv(QvlanPortSet(t, id, u, tu).0)
  {
    var k := IndexOf(t.vlans, id);
    if t.vtype == VtDot1q && k < |t.vlans| {
      var r := QvlanPortSet(t, id, u, tu).0;
      forall i | 0 <= i < |r.vlans| ensures HwAt(r, i) {
        assert HwAt(t, i);
      }
    }
  }

  lemma StepKeepsInv(t: Table, op: Op)
    requires Inv(t) && Legal(t, op)
    ensures Inv(Step(t, op))
  {
    match op
    case OpReset(g) => ResetKeepsInv(t, g);
    case OpTypeSet(ty, g) => TypeSetKeepsInv(t, ty, g);
    case OpCreate(id) => CreateKeepsInv(t, id);
    case OpDestroy(id) => DestroyKeepsInv(t, id);
    case OpPvlanPortSet(id, u) => PvlanPortSetKeepsInv(t, id, u);
    case OpQvlanPortSet(id, u, tu) => QvlanPortSetKeepsInv(t, id, u, tu);
  }

  // ---------- the main results ----------

  /**
   Every state of every run: distinct ids, no more than the maximum, the index and the
   egress masks exactly the unions the list stands for.
   */
  lemma {:induction false} EveryRunKeepsInv(states: seq<Table>, ops: seq<Op>, k: nat)
    requires IsRun(states, ops) && k < |states|
    ensures Inv(states[k])
  {
    if k > 0 {
      EveryRunKeepsInv(states, ops, k - 1);
      StepKeepsInv(states[k - 1], ops[k - 1]);
    } else {
      assert Booted(states[0]);
    }
  }

  lemma ReachableInv(t: Table)
    requires Reachable(t)
    ensures Inv(t)
  {
    var states, ops :| IsRun(states, ops) && states[|ops|] == t;
    EveryRunKeepsInv(states, ops, |ops|);
  }

  /** The hardware forwards between two ports in both directions or in neither. */
  lemma ReachabilityIsSharing(states: seq<Table>, ops: seq<Op>, k: nat, p: int, q: int)
    requires IsRun(states, ops) && k < |states| && states[k].vtype == VtPortBased
    requires p in ALL_PORTS && q in ALL_PORTS
    ensures q in states[k].egress[p] <==> exists i :: SharedAt(states[k].vlans, i, p, q)
    ensures q in states[k].egress[p] <==> p in states[k].egress[q]
  {
    EveryRunKeepsInv(states, ops, k);
    var vlans := states[k].vlans;
    assert DerivedAt(states[k], p) && DerivedAt(states[k], q);
    ReachMeans(vlans, p, q);
    ReachMeans(vlans, q, p);
    if i :| SharedAt(vlans, i, p, q) {
      assert SharedAt(vlans, i, q, p);
    }
    if i :| SharedAt(vlans, i, q, p) {
      assert SharedAt(vlans, i, p, q);
    }
  }

  /** Two ports share a VLAN other than id. */
  ghost predicate ShareOther(vlans: seq<Vlan>, id: nat, p: int, q: int) {
    exists i :: SharedAt(vlans, i, p, q) && vlans[i].id != id
  }

  /** Emptying and removing entry k leaves exactly the sharing that other entries gave. */
  lemma RemainingShare(vlans: seq<Vlan>, less: seq<Vlan>, k: nat, p: int, q: int)
    requires DistinctIds(vlans) && k < |vlans| && |less| == |vlans| - 1
    requires forall i :: 0 <= i < |less| ==> less[i] == vlans[if i < k then i else i + 1]
    ensures Share(less, p, q) <==> ShareOther(vlans, vlans[k].id, p, q)
  {
    if i :| SharedAt(less, i, p, q) {
      assert SharedAt(vlans, if i < k then i else i + 1, p, q);
    }
    if i :| SharedAt(vlans, i, p, q) && vlans[i].id != vlans[k].id {
      assert SharedAt(less, if i < k then i else i - 1, p, q);
    }
  }

  /** Destroying a VLAN separates exactly the pairs of ports that shared no other VLAN. */
  lemma DestroySeparates(t: Table, id: nat, p: int, q: int)
    requires Inv(t) && t.vtype == VtPortBased && Has(t.vlans, id)
    requires p in ALL_PORTS && q in ALL_PORTS
    ensures q in Destroy(t, id).0.egress[p] <==> ShareOther(t.vlans, id, p, q)
    ensures q in t.egress[p] && q !in Destroy(t, id).0.egress[p] <==>
            Share(t.vlans, p, q) && !ShareOther(t.vlans, id, p, q)
  {
    var r := Destroy(t, id).0;
    DestroyKeepsInv(t, id);
    assert DerivedAt(t, p) && DerivedAt(r, p);
    ReachMeans(t.vlans, p, q);
    ReachMeans(r.vlans, p, q);
    assert Share(r.vlans, p, q) <==> ShareOther(t.vlans, id, p, q) by {
      var e, k := DestroyEmptiesFirst(t, id);
      RemoveKeepsListInv(e, k);
      RemainingShare(t.vlans, r.vlans, k, p, q);
    }
  }

  /**
   brdimpl_vlan_reset renames the head node to the default VLAN without telling the
   switch. From 802.1Q mode with a switch that knew exactly the listed VLANs, the switch
   is left with the default VLAN alone if and only if the list was empty or led by it.
   */
  lemma ResetLeavesStaleEntry(t: Table, g: Uplist)
    requires Inv(t) && t.vtype == VtDot1q
    requires forall id :: id in t.hw <==> Has(t.vlans, id)
    ensures Reset(t, g).hw.Keys == {VLAN_DEFAULT as nat} <==>
            (t.vlans == [] || t.vlans[0].id == VLAN_DEFAULT)
    ensures t.vlans != [] ==> Reset(t, g).hw.Keys == {t.vlans[0].id, VLAN_DEFAULT}
  {
    var r := Reset(t, g);
    if t.vlans == [] {
      assert forall id :: id in t.hw ==> !Has(t.vlans, id);
      assert r.hw.Keys == {VLAN_DEFAULT as nat};
    } else {
      var dropped := set i | 1 <= i < |t.vlans| :: t.vlans[i].id;
      var first := t.vlans[0].id;
      assert Has(t.vlans, first) && first !in dropped;
      forall id: nat | id in t.hw && id != first ensures id in dropped {
        assert Has(t.vlans, id);
        assert t.vlans[IndexOf(t.vlans, id)].id == id;
      }
      assert r.hw.Keys == {first, VLAN_DEFAULT as nat};
      assert first in r.hw.Keys;
    }
  }

  /** A run after which the switch still knows a VLAN that the database does not list. */
  lemma StaleEntryRun(boot: Table, g: Uplist) returns (t: Table)
    requires Booted(boot) && boot.hw == map[]
    ensures Reachable(t) && Inv(t) && t.vtype == VtDot1q && forall id :: id in t.hw <==> Has(t.vlans, id)
    ensures Reachable(Reset(t, g)) && Reset(t, g).hw.Keys == {2, VLAN_DEFAULT} && !Has(Reset(t, g).vlans, 2)
  {
    BootedReachable(boot);
    t := StepReachable(boot, OpTypeSet(VtDot1q, g));
    assert t.vlans[0].id == VLAN_DEFAULT && |t.vlans| == 1 && t.hw.Keys == {VLAN_DEFAULT as nat};
    t := StepReachable(t, OpCreate(2));
    assert t.vlans[0].id == VLAN_DEFAULT && |t.vlans| == 2 && t.vlans[1].id == 2;
    assert t.hw.Keys == {VLAN_DEFAULT as nat, 2};
    t := StepReachable(t, OpDestroy(VLAN_DEFAULT));
    assert |t.vlans| == 1 && t.vlans[0].id == 2 && t.hw.Keys == {2};
    ReachableInv(t);
    forall id ensures id in t.hw <==> Has(t.vlans, id) {
      assert id == 2 ==> IndexOf(t.vlans, id) == 0;
    }
    ResetLeavesStaleEntry(t, g);
    var r := StepReachable(t, OpReset(g));
  }
}
