/**
 What the VLAN operations promise in numbers of the board: which VLANs can be created
 together after a type change, what each refusal means, what setting ports reads back, and
 what factory defaults end in.
 */
module VlanLimits {
  import opened Sequences
  import opened Uplists
  import opened VlanTable
  import opened VlanImage

  lemma HasIsListed(vlans: seq<Vlan>, id: nat)
    ensures Has(vlans, id) <==> id in Ids(vlans)
  {
    if i :| 0 <= i < |vlans| && Ids(vlans)[i] == id {
      assert vlans[i].id == id;
    }
    if Has(vlans, id) {
      assert Ids(vlans)[IndexOf(vlans, id)] == id;
    }
  }

  // ---------- type changes ----------

  /** Port p forwards to every port, belongs to VLAN 1 alone and puts untagged packets into it. */
  predicate OpenPort(t: Table, p: int) {
    p in ALL_PORTS && t.egress[p] == ALL_PORTS && t.memberOf[p] == {1} && t.pvid[p] == 1
  }

  /** The default VLAN alone, with every port as an untagged member. */
  ghost predicate OnlyDefault(t: Table) {
    |t.vlans| == 1 && t.vlans[0].id == 1 && Ports(t.vlans[0].uplist) == ALL_PORTS &&
    1 in t.hw && t.hw[1] == QEntry(ALL_PORTS, {}) &&
    forall p {:trigger OpenPort(t, p)} :: p in ALL_PORTS ==> OpenPort(t, p)
  }

  lemma ResetOpensPort(t: Table, g: Uplist, p: int)
    requires p in ALL_PORTS
    ensures OpenPort(Reset(t, g), p)
  {
  }

  /** A change to another type, from any state, ends in that type with the default VLAN alone. */
  lemma TypeChangeLands(t: Table, ty: VlanType, g: Uplist)
    requires ty != VtCount && t.vtype != ty
    ensures
      var (r, rv) := TypeSet(t, ty, g);
      rv == SysOk && r.vtype == ty && Inv(r) && OnlyDefault(r)
  {
    var r, reset := TypeSet(t, ty, g).0, Reset(t, g);
    ResetKeepsInv(t, g);
    TypeSetKeepsInv(reset.(vtype := VtNone), ty, g);
    AddAllPortsHasAll(if t.vlans == [] then g else t.vlans[0].uplist);
    forall p {:trigger OpenPort(r, p)} | p in ALL_PORTS ensures OpenPort(r, p) {
      ResetOpensPort(t, g, p);
    }
    assert HwInv(r) && Derived(r) by {
      assert HwAt(reset, 0) && HwAt(r, 0);
      forall p {:trigger DerivedAt(r, p)} | p in ALL_PORTS ensures DerivedAt(r, p) {
        assert DerivedAt(reset, p);
      }
    }
  }

  /** A change to the type in force, or to none of the three, changes nothing; only the latter is an error. */
  lemma TypeChangeRefused(t: Table, ty: VlanType, g: Uplist)
    requires ty == VtCount || t.vtype == ty
    ensures TypeSet(t, ty, g) == (t, if ty == VtCount then ErrParameter else SysOk)
  {
  }

  /** VLAN id is in the list, behind its head. */
  predicate BehindHead(t: Table, id: nat) {
    exists i :: 1 <= i < |t.vlans| && t.vlans[i].id == id
  }

  /** A reset makes the switch forget the VLANs behind the head of an 802.1Q list, no others, and learn the default. */
  lemma ResetForgets(t: Table, g: Uplist, id: nat)
    ensures id in Reset(t, g).hw <==> id == 1 || (id in t.hw && !(t.vtype == VtDot1q && BehindHead(t, id)))
    ensures id in Reset(t, g).hw && id != 1 ==> Reset(t, g).hw[id] == t.hw[id]
  {
  }

  // ---------- creations ----------

  /** In 802.1Q mode ids are 1 to 4094, and there is room for 128 VLANs. */
  lemma CreationIn1q(t: Table, id: nat)
    requires Inv(t) && t.vtype == VtDot1q
    ensures |t.vlans| <= 128
    ensures CreateStatus(t, id) == if !(1 <= id <= 4094) then ErrParameter
                                   else if |t.vlans| == 128 then ErrFull
                                   else if id in Ids(t.vlans) then ErrExists
                                   else SysOk
  {
    HasIsListed(t.vlans, id);
  }

  lemma PortBasedIdsInRange(t: Table, id: nat)
    requires Inv(t) && t.vtype == VtPortBased && id in Ids(t.vlans)
    ensures 1 <= id <= UPORT_COUNT + 1
  {
    var i :| 0 <= i < |t.vlans| && Ids(t.vlans)[i] == id;
    assert t.vlans[i].id == id;
  }

  /** As many VLANs as ids: each id is listed. */
  lemma FullHasEveryId(t: Table, id: nat)
    requires Inv(t) && t.vtype == VtPortBased && |t.vlans| == UPORT_COUNT + 1 && 1 <= id <= UPORT_COUNT + 1
    ensures id in Ids(t.vlans)
  {
    var ids := Ids(t.vlans);
    DistinctCount(ids);
    forall x | x in Elements(ids) ensures x in NumbersBelow(UPORT_COUNT + 2) - {0} {
      PortBasedIdsInRange(t, x);
    }
    SubsetCount(Elements(ids), NumbersBelow(UPORT_COUNT + 2) - {0});
  }

  /** In port-based mode the ids are 1 to one more than there are ports, and every one that is not listed has room. */
  lemma CreationPortBased(t: Table, id: nat)
    requires Inv(t) && t.vtype == VtPortBased && id >= 1
    ensures CreateStatus(t, id) == if id > UPORT_COUNT + 1 then ErrParameter
                                   else if id !in Ids(t.vlans) then SysOk
                                   else if |t.vlans| == UPORT_COUNT + 1 then ErrFull
                                   else ErrExists
  {
    HasIsListed(t.vlans, id);
    if |t.vlans| == UPORT_COUNT + 1 && id <= UPORT_COUNT + 1 {
      FullHasEveryId(t, id);
    }
  }

  /** Without a VLAN type nothing can be created. */
  lemma CreationNeedsType(t: Table, id: nat)
    requires t.vtype == VtNone || t.vtype == VtCount
    ensures CreateStatus(t, id) == ErrState
  {
  }

  /** A created VLAN is the last one, without ports, and the others stay; a refused creation changes nothing. */
  lemma CreatedIsLast(t: Table, id: nat)
    ensures CreateStatus(t, id) != SysOk ==> Create(t, id) == t
    ensures CreateStatus(t, id) == SysOk ==>
              Ids(Create(t, id).vlans) == Ids(t.vlans) + [id] && Create(t, id).vlans[..|t.vlans|] == t.vlans &&
              Ports(Create(t, id).vlans[|t.vlans|].uplist) == {} && Create(t, id).vtype == t.vtype
    ensures CreateStatus(t, id) == SysOk && t.vtype == VtDot1q ==>
              id in Create(t, id).hw && Create(t, id).hw[id] == QEntry({}, {})
  {
    EmptyHasNoPorts();
  }

  /** The VLANs 1, ..., n created one after the other. */
  function CreateUpTo(t: Table, n: nat): Table {
    if n == 0 then t else Create(CreateUpTo(t, n - 1), n)
  }

  lemma {:induction false} PortBasedHoldsUpTo(t: Table, n: nat)
    requires Inv(t) && t.vtype == VtPortBased && n <= UPORT_COUNT + 1
    ensures
      var r := CreateUpTo(t, n);
      Inv(r) && r.vtype == VtPortBased && forall id :: 1 <= id <= n ==> id in Ids(r.vlans)
  {
    if n == 0 {
    } else {
      PortBasedHoldsUpTo(t, n - 1);
      var s := CreateUpTo(t, n - 1);
      CreateKeepsInv(s, n);
      CreationPortBased(s, n);
      CreatedIsLast(s, n);
    }
  }

  /** After a change to port-based mode exactly the ids from 1 to one more than there are ports are listed together. */
  lemma PortBasedHoldsExactly(t: Table, g: Uplist, id: nat)
    requires t.vtype != VtPortBased
    ensures
      var r := CreateUpTo(TypeSet(t, VtPortBased, g).0, UPORT_COUNT + 1);
      id in Ids(r.vlans) <==> 1 <= id <= UPORT_COUNT + 1
  {
    TypeChangeLands(t, VtPortBased, g);
    PortBasedHoldsUpTo(TypeSet(t, VtPortBased, g).0, UPORT_COUNT + 1);
    var r := CreateUpTo(TypeSet(t, VtPortBased, g).0, UPORT_COUNT + 1);
    if id in Ids(r.vlans) {
      PortBasedIdsInRange(r, id);
    }
  }

  lemma {:induction false} Dot1qHoldsUpTo(t: Table, n: nat)
    requires Inv(t) && t.vtype == VtDot1q && Ids(t.vlans) == [1] && 1 <= n <= 128
    ensures
      var r := CreateUpTo(t, n);
      Inv(r) && r.vtype == VtDot1q && Ids(r.vlans) == seq(n, i requires 0 <= i => i + 1)
  {
    if n == 1 {
      CreationIn1q(t, 1);
      assert CreateUpTo(t, 0) == t;
    } else {
      Dot1qHoldsUpTo(t, n - 1);
      var s := CreateUpTo(t, n - 1);
      assert |s.vlans| == |Ids(s.vlans)|;
      CreateKeepsInv(s, n);
      CreationIn1q(s, n);
      CreatedIsLast(s, n);
    }
  }

  /** After a change to 802.1Q mode 128 VLANs are listed together, and one more is refused. */
  lemma Dot1qHolds128(t: Table, g: Uplist, id: nat)
    requires t.vtype != VtDot1q && 1 <= id <= 4094
    ensures
      var r := CreateUpTo(TypeSet(t, VtDot1q, g).0, 128);
      |r.vlans| == 128 && (1 <= id <= 128 ==> id in Ids(r.vlans)) && CreateStatus(r, id) == ErrFull
  {
    TypeChangeLands(t, VtDot1q, g);
    var s := TypeSet(t, VtDot1q, g).0;
    assert Ids(s.vlans) == [1];
    Dot1qHoldsUpTo(s, 128);
    var r := CreateUpTo(s, 128);
    assert |Ids(r.vlans)| == |r.vlans|;
    assert 1 <= id <= 128 ==> Ids(r.vlans)[id - 1] == id;
    CreationIn1q(r, id);
  }

  // ---------- ports ----------

  /** VLAN id has this port list, and nothing else changed in the list. */
  ghost predicate OnlyPortsSet(t: Table, r: Table, id: nat, u: Uplist) {
    Ids(r.vlans) == Ids(t.vlans) && r.vtype == t.vtype &&
    forall i {:trigger r.vlans[i]} :: 0 <= i < |r.vlans| && i < |t.vlans| ==>
      r.vlans[i].uplist == if t.vlans[i].id == id then u else t.vlans[i].uplist
  }

  /** Setting the ports of a listed port-based VLAN sets them; of another one it is an error and changes nothing. */
  lemma PortBasedPortsSet(t: Table, id: nat, u: Uplist)
    requires Inv(t) && t.vtype == VtPortBased
    ensures
      var (r, rv) := PvlanPortSet(t, id, u);
      if id in Ids(t.vlans) then rv == SysOk && OnlyPortsSet(t, r, id, u) else rv == ErrNotFound && r == t
  {
    HasIsListed(t.vlans, id);
    var r := PvlanPortSet(t, id, u).0;
    assert |r.vlans| == |t.vlans|;
    assert Ids(r.vlans) == Ids(t.vlans);
  }

  /** The same in 802.1Q mode, where the switch gets members and, of these, the tagged ones. */
  lemma Dot1qPortsSet(t: Table, id: nat, u: Uplist, tu: Uplist)
    requires Inv(t) && t.vtype == VtDot1q
    ensures
      var (r, rv) := QvlanPortSet(t, id, u, tu);
      if id in Ids(t.vlans) then
        rv == SysOk && OnlyPortsSet(t, r, id, u) && r.hw == t.hw[id := QEntry(Ports(u), Ports(tu) * Ports(u))]
      else rv == ErrNotFound && r == t
  {
    HasIsListed(t.vlans, id);
    var r := QvlanPortSet(t, id, u, tu).0;
    assert |r.vlans| == |t.vlans|;
    assert Ids(r.vlans) == Ids(t.vlans);
  }

  lemma Dot1qPortsNeed1q(t: Table, id: nat, u: Uplist, tu: Uplist)
    requires t.vtype != VtDot1q
    ensures QvlanPortSet(t, id, u, tu) == (t, ErrState)
  {
  }

  lemma IdsWithout(vlans: seq<Vlan>, less: seq<Vlan>, k: nat)
    requires k < |vlans| && DistinctIds(vlans) && |less| == |vlans| - 1
    requires forall i :: 0 <= i < |less| ==> less[i].id == vlans[if i < k then i else i + 1].id
    ensures Ids(less) == RemoveAt(Ids(vlans), k) && vlans[k].id !in Ids(less)
  {
    forall i | 0 <= i < |less| ensures Ids(less)[i] == RemoveAt(Ids(vlans), k)[i] != vlans[k].id {
      assert Ids(less)[i] == less[i].id;
    }
  }

  lemma DestroyedPortBased(t: Table, id: nat)
    requires Inv(t) && t.vtype == VtPortBased && Has(t.vlans, id)
    ensures
      var (r, rv) := Destroy(t, id);
      rv == SysOk && r.vtype == t.vtype && id !in Ids(r.vlans) &&
      Ids(r.vlans) == RemoveAt(Ids(t.vlans), IndexOf(t.vlans, id))
  {
    var e, k := DestroyEmptiesFirst(t, id);
    IdsWithout(t.vlans, Destroy(t, id).0.vlans, k);
  }

  /** Destroying a listed VLAN takes it out of the list, and in 802.1Q mode from the switch; others are not found. */
  lemma DestroyedIsGone(t: Table, id: nat)
    requires Inv(t)
    ensures
      var (r, rv) := Destroy(t, id);
      if id in Ids(t.vlans) then
        rv == SysOk && id !in Ids(r.vlans) && Ids(r.vlans) == RemoveAt(Ids(t.vlans), IndexOf(t.vlans, id)) &&
        (t.vtype == VtDot1q ==> r.hw == t.hw - {id}) && r.vtype == t.vtype
      else rv == ErrNotFound && r == t
  {
    HasIsListed(t.vlans, id);
    if Has(t.vlans, id) {
      if t.vtype == VtPortBased {
        DestroyedPortBased(t, id);
      } else {
        IdsWithout(t.vlans, Destroy(t, id).0.vlans, IndexOf(t.vlans, id));
      }
    }
  }

  // ---------- factory defaults ----------

  /**
   Loading factory defaults ends in 802.1Q mode from every type, with every port VLAN id
   the default; from another type it ends with the default VLAN alone, untagged on every port.
   */
  lemma DefaultsSelect1q(t: Table, g: Uplist)
    requires Inv(t)
    ensures
      var r := LoadDefaults(t, g);
      r.vtype == VtDot1q && Inv(r) && (forall p :: p in ALL_PORTS ==> r.pvid[p] == 1) &&
      (t.vtype != VtDot1q ==> OnlyDefault(r))
  {
    var r := LoadDefaults(t, g);
    if t.vtype == VtDot1q {
      LoadDefaultsLeavesDefaultVlan(t, g);
    } else {
      TypeChangeLands(t, VtDot1q, g);
      forall p | p in ALL_PORTS ensures r.pvid[p] == 1 {
        assert OpenPort(r, p);
      }
    }
  }
}
