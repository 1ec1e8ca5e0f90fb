/**
 The VLAN database as board/brd_vlan.c holds it: a singly linked list with head, tail
 and count, updated in place, beside the derived tables.
 */
module VlanDatabase {
  import opened Sequences
  import opened Uplists
  import opened VlanTable

  /** vlan_list_t */
  class VlanNode {
    var id: nat
    var uplist: Uplist
    var next: VlanNode?

    constructor (id: nat, uplist: Uplist)
      ensures this.id == id && this.uplist == uplist && this.next == null
    {
      this.id, this.uplist, this.next := id, uplist, null;
    }
  }

  ghost predicate Linked(nodes: seq<VlanNode>)
    reads nodes
  {
    (forall i {:trigger nodes[i].next} :: 0 <= i < |nodes| - 1 ==> nodes[i].next == nodes[i + 1]) &&
    (nodes != [] ==> nodes[|nodes| - 1].next == null) &&
    forall i, j :: 0 <= i < j < |nodes| ==> nodes[i] != nodes[j]
  }

  /** The nodes hold these VLANs, in this order. */
  ghost predicate Holds(nodes: seq<VlanNode>, vlans: seq<Vlan>)
    reads nodes
  {
    |vlans| == |nodes| &&
    forall i {:trigger nodes[i].id} {:trigger nodes[i].uplist} :: 0 <= i < |nodes| ==>
      nodes[i].id == vlans[i].id && nodes[i].uplist == vlans[i].uplist
  }

  /** vlan_info, member_of_pvlan_bmp and the switch tables behind the soc hooks. */
  class VlanDb {
    var vtype: VlanType
    var count: nat
    var maxCount: nat
    var head: VlanNode?
    var tail: VlanNode?
    var memberOf: PortSets
    var egress: PortMasks
    var hw: map<nat, QEntry>
    var pvid: PortIds
    ghost var nodes: seq<VlanNode>
    ghost var repr: set<VlanNode>
    ghost var vlans: seq<Vlan>

    /** The list from head is acyclic, ends at tail, and has count nodes. */
    ghost predicate Valid()
      reads this, repr
    {
      (forall n :: n in nodes ==> n in repr) && Linked(nodes) && Holds(nodes, vlans) &&
      count == |nodes| &&
      head == (if nodes == [] then null else nodes[0]) &&
      tail == (if nodes == [] then null else nodes[|nodes| - 1])
    }

    ghost function Abs(): Table
      reads this
    {
      Table(vtype, maxCount, vlans, memberOf, egress, hw, pvid)
    }

    /** _brdimpl_vlan_init */
    constructor (m: PortSets, e: PortMasks, h: map<nat, QEntry>, v: PortIds)
      ensures Valid() && Booted(Abs()) && repr == {}
    {
      vtype, count, maxCount := VtCount, 0, 0;
      head, tail, nodes, vlans, repr := null, null, [], [], {};
      memberOf, egress, hw, pvid := m, e, h, v;
    }

    /** _brdimpl_vlan_sw_vlan_group_get with delete_node FALSE: the walk alone. */
    method GroupFind(id: nat) returns (rv: Status, node: VlanNode?, prev: VlanNode?)
      requires Valid()
      ensures rv == if Has(vlans, id) then SysOk else ErrNotFound
      ensures rv == SysOk ==>
                var k := IndexOf(vlans, id);
                node == nodes[k] && prev == if k > 0 then nodes[k - 1] else null
    {
      node, prev := head, null;
      ghost var i := 0;
      while node != null
        invariant 0 <= i <= |nodes|
        invariant node == if i < |nodes| then nodes[i] else null
        invariant prev == if i > 0 then nodes[i - 1] else null
        invariant forall j :: 0 <= j < i ==> vlans[j].id != id
        decreases |nodes| - i
      {
        if node.id == id {
          assert i == IndexOf(vlans, id);
          return SysOk, node, prev;
        }
        prev := node;
        node := node.next;
        i := i + 1;
      }
      return ErrNotFound, null, null;
    }

    /** _brdimpl_vlan_sw_vlan_group_get with delete_node TRUE. */
    method GroupTake(id: nat) returns (rv: Status)
      requires Valid()
      modifies this, repr
      ensures Valid() && repr == old(repr) && Abs() == old(Abs()).(vlans := vlans)
      ensures rv == if Has(old(vlans), id) then SysOk else ErrNotFound
      ensures vlans == if rv == SysOk then RemoveAt(old(vlans), IndexOf(old(vlans), id)) else old(vlans)
    {
      var node, prev;
      rv, node, prev := GroupFind(id);
      if rv == SysOk {
        Unlink(node, prev, IndexOf(vlans, id));
      }
    }

    /** The delete_node branch: close the gap around node i and fix head, tail and count. */
    method Unlink(thisVlan: VlanNode, prev: VlanNode?, ghost i: nat)
      requires Valid() && i < |nodes| && thisVlan == nodes[i]
      requires prev == if i > 0 then nodes[i - 1] else null
      modifies this, prev
      ensures Valid()
      ensures nodes == RemoveAt(old(nodes), i) && vlans == RemoveAt(old(vlans), i)
      ensures Abs() == old(Abs()).(vlans := vlans) && repr == old(repr)
    {
      if prev != null {
        prev.next := thisVlan.next;
      } else {
        head := thisVlan.next;
      }
      if thisVlan == tail {
        tail := prev;
      }
      count := count - 1;
      CloseGap(i);
    }

    /** The list with node i already bypassed is a list without it. */
    ghost method CloseGap(i: nat)
      requires i < |nodes| && Holds(nodes, vlans)
      requires forall j, k :: 0 <= j < k < |nodes| ==> nodes[j] != nodes[k]
      requires forall j {:trigger nodes[j].next} :: 0 <= j < |nodes| && j != i && j != i - 1 ==>
        nodes[j].next == if j + 1 < |nodes| then nodes[j + 1] else null
      requires i > 0 ==> nodes[i - 1].next == if i + 1 < |nodes| then nodes[i + 1] else null
      modifies this`nodes, this`vlans
      ensures nodes == RemoveAt(old(nodes), i) && vlans == RemoveAt(old(vlans), i)
      ensures Linked(nodes) && Holds(nodes, vlans)
    {
      nodes, vlans := RemoveAt(nodes, i), RemoveAt(vlans, i);
    }

    /** brdimpl_vlan_reset; garbage is what freshly allocated memory happens to hold. */
    method Reset(garbage: Uplist)
      requires Valid()
      modifies this, repr
      ensures Valid() && Abs() == VlanTable.Reset(old(Abs()), garbage)
      ensures repr >= old(repr) && fresh(repr - old(repr))
    {
      DropOthers();
      KeepOnlyDefault(garbage);
      ResetPorts();
    }

    /** "Destroy other vlan groups": an 802.1Q switch is told about every node but the head. */
    method DropOthers()
      requires Valid()
      modifies this`hw
      ensures hw == old(hw) - (if vtype == VtDot1q && vlans != [] then set j | 1 <= j < |vlans| :: vlans[j].id else {})
    {
      var thisVlan: VlanNode? := if head == null then null else head.next;
      ghost var i := 1;
      while thisVlan != null
        invariant 1 <= i && (vlans != [] ==> i <= |vlans|)
        invariant thisVlan == if i < |nodes| then nodes[i] else null
        invariant vlans == [] ==> hw == old(hw)
        invariant vlans != [] ==>
          hw == old(hw) - (if vtype == VtDot1q then set j | 1 <= j < i :: vlans[j].id else {})
        decreases |nodes| - i
      {
        if vtype == VtDot1q {
          hw := hw - {thisVlan.id};
        }
        thisVlan := thisVlan.next;
        i := i + 1;
      }
    }

    /** The list part of the reset: one node, renamed to the default VLAN, all ports in it. */
    method KeepOnlyDefault(garbage: Uplist)
      requires Valid()
      modifies this, repr
      ensures Valid()
      ensures Abs() == old(Abs()).(vtype := VtNone, maxCount := 1, vlans :=
                [Vlan(VLAN_DEFAULT, AddAllPorts(if old(vlans) == [] then garbage else old(vlans)[0].uplist))])
      ensures repr >= old(repr) && fresh(repr - old(repr))
    {
      var first := head;
      if first == null {
        first := new VlanNode(0, garbage);
      }
      first.id := VLAN_DEFAULT;
      first.uplist := AddAllPorts(first.uplist);
      first.next := null;
      HoldOnly(first);
    }

    method HoldOnly(node: VlanNode)
      requires node.next == null
      modifies this
      ensures Valid() && repr == old(repr) + {node}
      ensures Abs() == old(Abs()).(vtype := VtNone, maxCount := 1, vlans := [Vlan(node.id, node.uplist)])
    {
      maxCount, count, vtype := 1, 1, VtNone;
      head, tail := node, node;
      nodes, vlans := [], [];
      Record(node);
    }

    /** The per-port tables and the switch go back to their defaults. */
    method ResetPorts()
      requires Valid()
      modifies this`memberOf, this`egress, this`hw, this`pvid
      ensures Valid()
      ensures Abs() == old(Abs()).(
                memberOf := old(memberOf)[..1] + seq(UPORT_COUNT, _ => {VLAN_DEFAULT as nat}),
                egress := seq(UPORT_COUNT + 1, _ => ALL_PORTS),
                hw := old(hw)[VLAN_DEFAULT := QEntry(ALL_PORTS, {})],
                pvid := seq(UPORT_COUNT + 1, _ => VLAN_DEFAULT as nat))
    {
      ClearPortIndex();
      SocVlanReset();
    }

    /** "clear for port-base vlan": every port is in VLAN 1 and no other. */
    method ClearPortIndex()
      modifies this`memberOf
      ensures memberOf == old(memberOf)[..1] + seq(UPORT_COUNT, _ => {VLAN_DEFAULT as nat})
    {
      for p := 1 to UPORT_COUNT + 1
        invariant memberOf[0] == old(memberOf)[0]
        invariant forall q :: 1 <= q < p ==> memberOf[q] == {VLAN_DEFAULT as nat}
      {
        memberOf := memberOf[p := {VLAN_DEFAULT as nat}];
      }
    }

    /** The soc->vlan_reset hook: default VLAN with all ports, open masks, default PVIDs. */
    method SocVlanReset()
      modifies this`egress, this`hw, this`pvid
      ensures egress == seq(UPORT_COUNT + 1, _ => ALL_PORTS)
      ensures hw == old(hw)[VLAN_DEFAULT := QEntry(ALL_PORTS, {})]
      ensures pvid == seq(UPORT_COUNT + 1, _ => VLAN_DEFAULT as nat)
    {
      egress := seq(UPORT_COUNT + 1, _ => ALL_PORTS);
      hw := hw[VLAN_DEFAULT := QEntry(ALL_PORTS, {})];
      pvid := seq(UPORT_COUNT + 1, _ => VLAN_DEFAULT as nat);
    }

    /** brdimpl_vlan_type_set */
    method TypeSet(ty: VlanType, garbage: Uplist) returns (rv: Status)
      requires Valid()
      modifies this, repr
      ensures Valid() && (Abs(), rv) == VlanTable.TypeSet(old(Abs()), ty, garbage)
      ensures repr >= old(repr) && fresh(repr - old(repr))
    {
      if ty == VtCount {
        return ErrParameter;
      }
      if vtype == ty {
        return SysOk;
      }
      Reset(garbage);
      vtype := ty;
      if ty == VtPortBased {
        maxCount := UPORT_COUNT + 1;
      } else if ty == VtDot1q {
        maxCount := BOARD_MAX_NUM_OF_QVLANS;
      }
      return SysOk;
    }

    /** brdimpl_vlan_create */
    method Create(id: nat) returns (rv: Status)
      requires Valid()
      modifies this, repr
      ensures Valid() && Abs() == VlanTable.Create(old(Abs()), id)
      ensures rv == CreateStatus(old(Abs()), id)
      ensures repr >= old(repr) && fresh(repr - old(repr))
    {
      if vtype == VtDot1q {
        if !(SOC_MIN_1QVLAN_ID <= id <= SOC_MAX_1QVLAN_ID) {
          return ErrParameter;
        }
      } else if vtype == VtPortBased {
        if id > maxCount {
          return ErrParameter;
        }
      } else {
        return ErrState;
      }
      if count == maxCount {
        return ErrFull;
      }
      var found, _, _ := GroupFind(id);
      if found != ErrNotFound {
        return ErrExists;
      }
      if vtype == VtDot1q {
        hw := hw[id := QEntry({}, {})];
      }
      Append(id);
      return SysOk;
    }

    /** The list part of the creation: a new last node without ports. */
    method Append(id: nat)
      requires Valid()
      modifies this, tail
      ensures Valid() && Abs() == old(Abs()).(vlans := old(vlans) + [Vlan(id, EMPTY_UPLIST)])
      ensures repr >= old(repr) && fresh(repr - old(repr))
    {
      var vlan := new VlanNode(id, EMPTY_UPLIST);
      if tail != null {
        tail.next := vlan;
      }
      tail := vlan;
      if head == null {
        head := tail;
      }
      count := count + 1;
      Record(vlan);
    }

    /** The list already linked up to a new last node is a list with that node. */
    ghost method Record(vlan: VlanNode)
      requires vlan.next == null && vlan !in nodes && Holds(nodes, vlans)
      requires forall n :: n in nodes ==> n in repr
      requires forall j, k :: 0 <= j < k < |nodes| ==> nodes[j] != nodes[k]
      requires forall j {:trigger nodes[j].next} :: 0 <= j < |nodes| ==>
        nodes[j].next == if j + 1 < |nodes| then nodes[j + 1] else vlan
      modifies this`nodes, this`vlans, this`repr
      ensures nodes == old(nodes) + [vlan] && vlans == old(vlans) + [Vlan(vlan.id, vlan.uplist)]
      ensures repr == old(repr) + {vlan} && (forall n :: n in nodes ==> n in repr)
      ensures Linked(nodes) && Holds(nodes, vlans)
    {
      nodes, vlans, repr := nodes + [vlan], vlans + [Vlan(vlan.id, vlan.uplist)], repr + {vlan};
    }

    /** brdimpl_vlan_destroy */
    method Destroy(id: nat) returns (rv: Status)
      requires Valid()
      modifies this, repr
      ensures Valid() && (Abs(), rv) == VlanTable.Destroy(old(Abs()), id)
      ensures repr == old(repr)
    {
      if vtype == VtPortBased {
        rv := PvlanPortSet(id, EMPTY_UPLIST);
        if rv != SysOk {
          return;
        }
      }
      rv := GroupTake(id);
      if rv != SysOk {
        return;
      }
      if vtype == VtDot1q {
        hw := hw - {id};
      }
    }

    /** brdimpl_pvlan_port_set, which the code runs only for port-based VLANs. */
    method PvlanPortSet(id: nat, uplist: Uplist) returns (rv: Status)
      requires Valid() && vtype == VtPortBased
      modifies this, repr
      ensures Valid() && (Abs(), rv) == VlanTable.PvlanPortSet(old(Abs()), id, uplist)
      ensures nodes == old(nodes) && repr == old(repr)
    {
      var found, node, _ := GroupFind(id);
      rv := found;
      if rv != SysOk {
        return;
      }
      if node.uplist == uplist {
        return SysOk;
      }
      RebuildPorts(id, uplist);
      Store(node, uplist, IndexOf(vlans, id));
      return SysOk;
    }

    /** The loop of brdimpl_pvlan_port_set over the ports. */
    method RebuildPorts(id: nat, uplist: Uplist)
      requires Valid()
      modifies this`memberOf, this`egress
      ensures memberOf == MembersUpTo(old(memberOf), id, uplist, UPORT_COUNT)
      ensures egress == EgressUpTo(old(egress), vlans, old(memberOf), id, uplist, UPORT_COUNT)
    {
      for uport := 1 to UPORT_COUNT + 1
        invariant memberOf == MembersUpTo(old(memberOf), id, uplist, uport - 1) + old(memberOf)[uport..]
        invariant egress == EgressUpTo(old(egress), vlans, old(memberOf), id, uplist, uport - 1) + old(egress)[uport..]
      {
        RebuildPort(uport, id, uplist);
      }
    }

    /** One port: first its index word, then its egress mask through that word. */
    method RebuildPort(uport: nat, id: nat, uplist: Uplist)
      requires Valid() && 1 <= uport <= UPORT_COUNT
      modifies this`memberOf, this`egress
      ensures memberOf == old(memberOf)[uport := NewMember(old(memberOf)[uport], id, uport in Ports(uplist))]
      ensures egress == old(egress)[uport := NewEgress(vlans, memberOf[uport], id, uplist, uport)]
    {
      PortsMatches(uplist, uport);
      var egr: set<int> := {};
      if Matched(uplist, uport) {
        memberOf := memberOf[uport := memberOf[uport] + {id}];
        egr := Ports(uplist);
      } else {
        memberOf := memberOf[uport := memberOf[uport] - {id}];
      }
      var others := UnionOthers(memberOf[uport], id);
      egress := egress[uport := egr + others];
    }

    /** The inner walk of brdimpl_pvlan_port_set over the other VLANs of one port. */
    method UnionOthers(m: set<nat>, id: nat) returns (egr: set<int>)
      requires Valid()
      ensures egr == OthersUnion(vlans, m, id)
    {
      egr := {};
      var other := head;
      ghost var i := 0;
      while other != null
        invariant 0 <= i <= |nodes|
        invariant other == if i < |nodes| then nodes[i] else null
        invariant egr == OthersUnion(vlans[..i], m, id)
        decreases |nodes| - i
      {
        assert vlans[..i + 1][..i] == vlans[..i];
        if other.id != id {
          if other.id in m {
            egr := egr + Ports(other.uplist);
          }
        }
        other := other.next;
        i := i + 1;
      }
      assert vlans[..|nodes|] == vlans;
    }

    /** sal_memcpy of a port list into node k. */
    method Store(node: VlanNode, uplist: Uplist, ghost k: nat)
      requires Valid() && k < |nodes| && node == nodes[k]
      modifies this`vlans, node`uplist
      ensures Valid() && vlans == old(vlans)[k := Vlan(node.id, uplist)]
    {
      node.uplist := uplist;
      vlans := vlans[k := Vlan(node.id, uplist)];
    }

    /** brdimpl_pvlan_port_get */
    method PvlanPortGet(id: nat) returns (rv: Status, uplist: Uplist)
      requires Valid()
      ensures rv == if Has(vlans, id) then SysOk else ErrNotFound
      ensures rv == SysOk ==> uplist == vlans[IndexOf(vlans, id)].uplist
    {
      var found, node, _ := GroupFind(id);
      rv, uplist := found, EMPTY_UPLIST;
      if rv == SysOk {
        uplist := node.uplist;
      }
    }

    /** brdimpl_qvlan_port_set */
    method QvlanPortSet(id: nat, uplist: Uplist, taguplist: Uplist) returns (rv: Status)
      requires Valid()
      modifies this, repr
      ensures Valid() && (Abs(), rv) == VlanTable.QvlanPortSet(old(Abs()), id, uplist, taguplist)
      ensures nodes == old(nodes) && repr == old(repr)
    {
      if vtype != VtDot1q {
        return ErrState;
      }
      var found, node, _ := GroupFind(id);
      rv := found;
      if rv != SysOk {
        return;
      }
      hw := hw[id := QEntry(Ports(uplist), Ports(taguplist) * Ports(uplist))];
      Store(node, uplist, IndexOf(vlans, id));
    }

    /**
     brdimpl_qvlan_get_by_index without port lists. The source's loop counter has 8
     bits; no list the database can hold is long enough to wrap it.
     */
    method GetIdByIndex(index: nat) returns (rv: Status, id: nat)
      requires Valid()
      ensures rv == if index < |nodes| then SysOk else ErrNotFound
      ensures rv == SysOk ==> id == Abs().vlans[index].id
    {
      id := 0;
      if head == null {
        return ErrNotFound, 0;
      }
      var thisVlan := head;
      var i := 0;
      while i < index && thisVlan != null
        invariant 0 <= i <= index && i <= |nodes|
        invariant thisVlan == if i < |nodes| then nodes[i] else null
        decreases |nodes| - i
      {
        thisVlan := thisVlan.next;
        i := i + 1;
      }
      if thisVlan == null {
        return ErrNotFound, 0;
      }
      return SysOk, thisVlan.id;
    }

    /**
     brdimpl_qvlan_get_by_index with port lists, which come from the switch; absent is what
     the switch answers for a VLAN it does not know.
     */
    method GetByIndex(index: nat, absent: Status) returns (rv: Status, id: nat, uplist: Uplist, taguplist: Uplist)
      requires Valid() && absent != SysOk
      ensures rv == if index >= |nodes| then ErrNotFound else if Abs().vlans[index].id in hw then SysOk else absent
      ensures rv == SysOk ==>
                id == Abs().vlans[index].id && id in hw &&
                uplist == ToUplist(hw[id].members) && taguplist == ToUplist(hw[id].tagged)
    {
      uplist, taguplist := EMPTY_UPLIST, EMPTY_UPLIST;
      rv, id := GetIdByIndex(index);
      if rv == SysOk {
        if id !in hw {
          return absent, 0, uplist, taguplist;
        }
        uplist, taguplist := ToUplist(hw[id].members), ToUplist(hw[id].tagged);
      }
    }
  }
}
