/** Where each byte of the persistent VLAN images stands (serializers/vlan.c). */
module VlanLayout {
  import opened Uplists
  import opened VlanTable
  import opened VlanImage

  /** Bytes off and off + 1 hold the value, least significant byte first. */
  predicate Holds16(b: Bytes, off: nat, v: nat) {
    off + 2 <= |b| && b[off] as nat == v % 256 && b[off + 1] as nat == v / 256
  }

  /** Type and count come first; 0 stands for no type, 1 for port-based, 2 for 802.1Q. */
  lemma HeaderLayout(t: Table)
    requires Inv(t)
    ensures Saveable(t) && |Image(t)| == 4 + 128 * 18
    ensures Holds16(Image(t), 2, |t.vlans|)
    ensures
      Holds16(Image(t), 0, match t.vtype case VtNone => 0 case VtPortBased => 1 case VtDot1q => 2 case VtCount => 3)
  {
    InvIsSaveable(t);
    var code, count := Uint16Bytes(TypeCode(t.vtype)), Uint16Bytes(|t.vlans|);
    assert Image(t)[..2] == code && Image(t)[2..4] == count;
  }

  /** VLAN number i of a port-based list stands at byte 4 + 10 * i: its id, then its port list. */
  lemma PortBasedLayout(t: Table, i: nat)
    requires Inv(t) && t.vtype == VtPortBased && i < |t.vlans|
    ensures Saveable(t) && Holds16(Image(t), 4 + 10 * i, t.vlans[i].id)
    ensures 14 + 10 * i <= |Image(t)| && Image(t)[6 + 10 * i..14 + 10 * i] == t.vlans[i].uplist
  {
    InvIsSaveable(t);
    var x, y := ImageSplit(t, i);
    var row := RowBytes(t.vtype, RowsOf(t)[i]);
    assert Image(t)[|x|..|x| + 10] == row;
    assert row[..2] == Uint16Bytes(t.vlans[i].id) && row[2..] == t.vlans[i].uplist;
    SliceOf(Image(t), row, |x|, 0, 2);
    SliceOf(Image(t), row, |x|, 2, 10);
  }

  /** VLAN number i of an 802.1Q list stands at byte 4 + 18 * i: its id, its members and its tagged members. */
  lemma Dot1qLayout(t: Table, i: nat)
    requires Inv(t) && t.vtype == VtDot1q && i < |t.vlans|
    ensures Saveable(t) && Holds16(Image(t), 4 + 18 * i, t.vlans[i].id)
    ensures 22 + 18 * i <= |Image(t)| && t.vlans[i].id in t.hw
    ensures Image(t)[6 + 18 * i..14 + 18 * i] == ToUplist(t.hw[t.vlans[i].id].members)
    ensures Image(t)[14 + 18 * i..22 + 18 * i] == ToUplist(t.hw[t.vlans[i].id].tagged)
  {
    InvIsSaveable(t);
    var x, y := ImageSplit(t, i);
    var row := RowBytes(t.vtype, RowsOf(t)[i]);
    assert Image(t)[|x|..|x| + 18] == row;
    assert row[..2] == Uint16Bytes(t.vlans[i].id);
    assert row[2..10] == ToUplist(t.hw[t.vlans[i].id].members);
    assert row[10..] == ToUplist(t.hw[t.vlans[i].id].tagged);
    SliceOf(Image(t), row, |x|, 0, 2);
    SliceOf(Image(t), row, |x|, 2, 10);
    SliceOf(Image(t), row, |x|, 10, 18);
  }

  lemma SliceOf(b: Bytes, row: Bytes, off: nat, i: nat, j: nat)
    requires i <= j <= |row| && off + |row| <= |b| && b[off..off + |row|] == row
    ensures b[off + i..off + j] == row[i..j]
  {
    forall k | i <= k < j ensures b[off + k] == row[k] {
      assert b[off..off + |row|][k] == row[k];
    }
  }

  /** Behind the stored VLANs the image is filled up with zeros. */
  lemma PaddingLayout(t: Table, k: nat)
    requires Inv(t) && Saveable(t) && 4 + RowsLen(t.vtype, |t.vlans|) <= k < |Image(t)|
    ensures Image(t)[k] == 0
  {
    var rows := RowsBytes(t.vtype, RowsOf(t));
    ConcatLen(t.vtype, Pieces(t.vtype, RowsOf(t)), |t.vlans|);
    assert |Header(t) + rows| == 4 + RowsLen(t.vtype, |t.vlans|);
  }

  /** The port VLAN id of port p stands at byte 2 * (p - 1), and 1 outside 802.1Q mode. */
  lemma {:induction false} PvidLayout(t: Table, n: nat, p: nat)
    requires PvidsFit(t) && 1 <= p <= n <= UPORT_COUNT
    ensures Holds16(PvidImage(t, n), 2 * (p - 1), if t.vtype == VtDot1q then t.pvid[p] else 1)
  {
    if p == n {
    } else {
      PvidLayout(t, n - 1, p);
    }
  }
}
