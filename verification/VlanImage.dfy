/**
 The persistent images of the VLAN database and of the port VLAN ids as byte strings
 (serializers/vlan.c), and what saving followed by loading gives back.
 */
module VlanImage {
  import opened Sequences
  import opened Uplists
  import opened VlanTable

  const MAX_VLAN_SERIALIZED_UNIT_LEN := 2 + MAX_UPLIST_WIDTH * 2
  const MAX_VLAN_SERIALIZED_LEN := 4 + BOARD_MAX_NUM_OF_QVLANS * MAX_VLAN_SERIALIZED_UNIT_LEN

  type Bytes = seq<byte>

  // ---------- 16-bit values, least significant byte first ----------

  function Uint16Bytes(v: nat): (r: Bytes)
    requires v < 0x1_0000
    ensures |r| == 2
  {
    [(v % 256) as byte, (v / 256) as byte]
  }

  function Uint16At(b: Bytes, off: nat): nat
    requires off + 2 <= |b|
  {
    b[off] as nat + 256 * (b[off + 1] as nat)
  }

  /** Reading a 16-bit value where it was written gives it back, whatever surrounds it. */
  lemma Uint16RoundTrip(x: Bytes, v: nat, y: Bytes)
    requires v < 0x1_0000
    ensures Uint16At(x + Uint16Bytes(v) + y, |x|) == v
  {
  }

  // ---------- one stored VLAN ----------

  /** A stored VLAN: its id and its port lists, the second used in 802.1Q mode only. */
  datatype Row = Row(id: nat, ports: Uplist, tagged: Uplist)

  function TypeCode(ty: VlanType): nat {
    match ty case VtNone => 0 case VtPortBased => 1 case VtDot1q => 2 case VtCount => 3
  }

  function TypeOfCode(v: nat): VlanType {
    if v == 0 then VtNone else if v == 1 then VtPortBased else if v == 2 then VtDot1q else VtCount
  }

  function RowLen(ty: VlanType): nat {
    match ty
    case VtPortBased => 2 + MAX_UPLIST_WIDTH
    case VtDot1q => MAX_VLAN_SERIALIZED_UNIT_LEN
    case _ => 0
  }

  /** The length of n rows, in numbers; RowsLenIs ties it to the length of one. */
  function RowsLen(ty: VlanType, n: nat): nat {
    match ty
    case VtPortBased => n * 10
    case VtDot1q => n * 18
    case _ => 0
  }

  lemma RowsLenIs(ty: VlanType, n: nat)
    ensures RowsLen(ty, n) == n * RowLen(ty)
  {
  }

  function RowBytes(ty: VlanType, row: Row): (r: Bytes)
    requires row.id < 0x1_0000
    ensures |r| == RowLen(ty)
  {
    match ty
    case VtPortBased => Uint16Bytes(row.id) + row.ports
    case VtDot1q => Uint16Bytes(row.id) + row.ports + row.tagged
    case _ => []
  }

  function RowAt(ty: VlanType, b: Bytes, off: nat): Row
    requires off + RowLen(ty) <= |b|
  {
    match ty
    case VtPortBased => Row(Uint16At(b, off), b[off + 2..off + 2 + MAX_UPLIST_WIDTH], EMPTY_UPLIST)
    case VtDot1q => Row(Uint16At(b, off), b[off + 2..off + 2 + MAX_UPLIST_WIDTH],
                        b[off + 2 + MAX_UPLIST_WIDTH..off + MAX_VLAN_SERIALIZED_UNIT_LEN])
    case _ => Row(0, EMPTY_UPLIST, EMPTY_UPLIST)
  }

  predicate RowFits(ty: VlanType, row: Row) {
    row.id < 0x1_0000 && (ty == VtPortBased ==> row.tagged == EMPTY_UPLIST)
  }

  lemma Middle(a: Bytes, b: Bytes, c: Bytes)
    ensures (a + b + c)[|a|..|a| + |b|] == b
  {
  }

  lemma RowRoundTrip(ty: VlanType, x: Bytes, row: Row, y: Bytes)
    requires RowFits(ty, row) && (ty == VtPortBased || ty == VtDot1q)
    ensures RowAt(ty, x + RowBytes(ty, row) + y, |x|) == row
  {
    var b := x + RowBytes(ty, row) + y;
    var id, ports := Uint16Bytes(row.id), row.ports;
    var rest := if ty == VtDot1q then row.tagged + y else y;
    assert b == x + id + (ports + rest);
    Uint16RoundTrip(x, row.id, ports + rest);
    assert b == (x + id) + ports + rest;
    Middle(x + id, ports, rest);
    if ty == VtDot1q {
      assert b == (x + id + ports) + row.tagged + y;
      Middle(x + id + ports, row.tagged, y);
    }
  }

  // ---------- a list of stored VLANs ----------

  predicate RowsFit(ty: VlanType, rows: seq<Row>) {
    forall i :: 0 <= i < |rows| ==> RowFits(ty, rows[i])
  }

  function Pieces(ty: VlanType, rows: seq<Row>): (r: seq<Bytes>)
    requires RowsFit(ty, rows)
    ensures |r| == |rows| && forall i :: 0 <= i < |r| ==> r[i] == RowBytes(ty, rows[i])
  {
    seq(|rows|, i requires 0 <= i < |rows| => RowBytes(ty, rows[i]))
  }

  /** The loop that writes one piece after the other, after k pieces. */
  function Concat(pieces: seq<Bytes>, k: nat): Bytes
    requires k <= |pieces|
  {
    if k == 0 then [] else Concat(pieces, k - 1) + pieces[k - 1]
  }

  function RowsBytes(ty: VlanType, rows: seq<Row>): Bytes
    requires RowsFit(ty, rows)
  {
    Concat(Pieces(ty, rows), |rows|)
  }

  lemma {:induction false} ConcatLen(ty: VlanType, pieces: seq<Bytes>, k: nat)
    requires k <= |pieces| && forall i :: 0 <= i < |pieces| ==> |pieces[i]| == RowLen(ty)
    ensures |Concat(pieces, k)| == RowsLen(ty, k)
  {
    if k > 0 { ConcatLen(ty, pieces, k - 1); }
  }

  lemma Regroup(a: Bytes, b: Bytes, c: Bytes, d: Bytes)
    ensures a + b + c + d == a + b + (c + d)
    ensures a + (b + c) + d == a + b + (c + d)
  {
  }

  /** Piece i sits behind the pieces before it. */
  lemma {:induction false} ConcatSplit(pieces: seq<Bytes>, k: nat, i: nat) returns (post: Bytes)
    requires i < k <= |pieces|
    ensures Concat(pieces, k) == Concat(pieces, i) + pieces[i] + post
  {
    if i == k - 1 {
      post := [];
    } else {
      post := ConcatSplit(pieces, k - 1, i);
      Regroup(Concat(pieces, i), pieces[i], post, pieces[k - 1]);
      post := post + pieces[k - 1];
    }
  }

  // ---------- the image of a database ----------

  /** What a save stores of VLAN number i: in 802.1Q mode, what the switch reports. */
  function RowOf(t: Table, i: nat): Row
    requires i < |t.vlans| && (t.vtype == VtDot1q ==> t.vlans[i].id in t.hw)
  {
    var id := t.vlans[i].id;
    if t.vtype == VtDot1q then Row(id, ToUplist(t.hw[id].members), ToUplist(t.hw[id].tagged))
    else Row(id, t.vlans[i].uplist, EMPTY_UPLIST)
  }

  predicate Known(t: Table) {
    t.vtype == VtDot1q ==> forall i :: 0 <= i < |t.vlans| ==> t.vlans[i].id in t.hw
  }

  function RowsOf(t: Table): (r: seq<Row>)
    requires Known(t)
    ensures |r| == |t.vlans| && forall i :: 0 <= i < |r| ==> r[i] == RowOf(t, i)
  {
    seq(|t.vlans|, i requires 0 <= i < |t.vlans| => RowOf(t, i))
  }

  predicate Saveable(t: Table) {
    && Known(t)
    && |t.vlans| < 0x1_0000
    && (forall i :: 0 <= i < |t.vlans| ==> t.vlans[i].id < 0x1_0000)
    && 4 + RowsLen(t.vtype, |t.vlans|) <= MAX_VLAN_SERIALIZED_LEN
  }

  function Header(t: Table): (r: Bytes)
    requires |t.vlans| < 0x1_0000
    ensures |r| == 4
  {
    Uint16Bytes(TypeCode(t.vtype)) + Uint16Bytes(|t.vlans|)
  }

  function Padding(used: nat): Bytes
    requires used <= MAX_VLAN_SERIALIZED_LEN
  {
    seq(MAX_VLAN_SERIALIZED_LEN - used, _ => 0)
  }

  function Image(t: Table): (r: Bytes)
    requires Saveable(t)
    ensures |r| == MAX_VLAN_SERIALIZED_LEN
  {
    ConcatLen(t.vtype, Pieces(t.vtype, RowsOf(t)), |t.vlans|);
    Header(t) + RowsBytes(t.vtype, RowsOf(t)) + Padding(4 + RowsLen(t.vtype, |t.vlans|))
  }

  /** What a load relies on: a full-length image whose rows end inside it. */
  predicate ImageOk(b: Bytes) {
    && |b| == MAX_VLAN_SERIALIZED_LEN
    && 4 + RowsLen(TypeOfCode(Uint16At(b, 0)), Uint16At(b, 2)) <= MAX_VLAN_SERIALIZED_LEN
  }

  function ImageRow(b: Bytes, i: nat): Row
    requires ImageOk(b) && i < Uint16At(b, 2)
  {
    var ty := TypeOfCode(Uint16At(b, 0));
    assert RowsLen(ty, i + 1) <= RowsLen(ty, Uint16At(b, 2));
    RowAt(ty, b, 4 + RowsLen(ty, i))
  }

  function ImageRows(b: Bytes): (r: seq<Row>)
    requires ImageOk(b)
    ensures |r| == Uint16At(b, 2) && forall i :: 0 <= i < |r| ==> r[i] == ImageRow(b, i)
  {
    seq(Uint16At(b, 2), i requires 0 <= i < Uint16At(b, 2) => ImageRow(b, i))
  }

  lemma InvIsSaveable(t: Table)
    requires Inv(t)
    ensures Saveable(t)
  {
    if t.vtype == VtDot1q {
      forall i | 0 <= i < |t.vlans| ensures t.vlans[i].id in t.hw { assert HwAt(t, i); }
    }
  }

  /** The VLAN types whose list is stored; of the others a save keeps the type and the count. */
  predicate Stored(ty: VlanType) {
    ty == VtPortBased || ty == VtDot1q
  }

  /** Nothing a save writes is lost: type, count and every row are read back. */
  lemma ImageReadsBack(t: Table)
    requires Inv(t)
    ensures Saveable(t) && ImageOk(Image(t))
    ensures TypeOfCode(Uint16At(Image(t), 0)) == t.vtype && |ImageRows(Image(t))| == |t.vlans|
    ensures Stored(t.vtype) ==> ImageRows(Image(t)) == RowsOf(t)
  {
    InvIsSaveable(t);
    HeaderReadsBack(t);
    var rows := RowsOf(t);
    forall i | 0 <= i < |rows| && Stored(t.vtype) ensures ImageRow(Image(t), i) == rows[i] {
      RowReadsBack(t, i);
    }
  }

  lemma HeaderReadsBack(t: Table)
    requires Saveable(t)
    ensures Uint16At(Image(t), 0) == TypeCode(t.vtype) && Uint16At(Image(t), 2) == |t.vlans|
  {
    var code, count := Uint16Bytes(TypeCode(t.vtype)), Uint16Bytes(|t.vlans|);
    var rest := RowsBytes(t.vtype, RowsOf(t)) + Padding(4 + RowsLen(t.vtype, |t.vlans|));
    assert Image(t) == [] + code + (count + rest);
    Uint16RoundTrip([], TypeCode(t.vtype), count + rest);
    assert Image(t) == code + count + rest;
    Uint16RoundTrip(code, |t.vlans|, rest);
  }

  lemma ImageSplit(t: Table, i: nat) returns (x: Bytes, y: Bytes)
    requires Saveable(t) && i < |t.vlans|
    ensures Image(t) == x + RowBytes(t.vtype, RowsOf(t)[i]) + y
    ensures |x| == 4 + RowsLen(t.vtype, i)
  {
    var pieces := Pieces(t.vtype, RowsOf(t));
    var pad := Padding(4 + RowsLen(t.vtype, |t.vlans|));
    var head, pre := Header(t), Concat(pieces, i);
    var post := ConcatSplit(pieces, |pieces|, i);
    ConcatLen(t.vtype, pieces, i);
    x, y := head + pre, post + pad;
    Regroup(head, pre + pieces[i], post, pad);
    Regroup(head, pre, pieces[i], y);
  }

  lemma RowReadsBack(t: Table, i: nat)
    requires Saveable(t) && (t.vtype == VtPortBased || t.vtype == VtDot1q) && i < |t.vlans|
    ensures 4 + RowsLen(t.vtype, i) + RowLen(t.vtype) <= MAX_VLAN_SERIALIZED_LEN
    ensures RowAt(t.vtype, Image(t), 4 + RowsLen(t.vtype, i)) == RowOf(t, i)
  {
    var x, y := ImageSplit(t, i);
    assert |Image(t)| == |x| + RowLen(t.vtype) + |y|;
    RowRoundTrip(t.vtype, x, RowsOf(t)[i], y);
  }

  // ---------- loading ----------

  function LoadRow(t: Table, row: Row): Table
  {
    var c := Create(t, row.id);
    match t.vtype
    case VtPortBased => PvlanPortSet(c, row.id, row.ports).0
    case VtDot1q => QvlanPortSet(c, row.id, row.ports, row.tagged).0
    case _ => t
  }

  /** The loop of a load, after k rows. */
  function Loop(step: (Table, Row) -> Table, t: Table, rows: seq<Row>, k: nat): (r: Table)
    requires k <= |rows|
  {
    if k == 0 then t else step(Loop(step, t, rows, k - 1), rows[k - 1])
  }

  function LoadRows(t: Table, rows: seq<Row>, k: nat): (r: Table)
    requires k <= |rows|
  {
    Loop(LoadRow, t, rows, k)
  }

  /** The type is selected, then the default VLAN is removed before the rows are loaded. */
  function LoadBase(t: Table, ty: VlanType, garbage: Uplist): (r: Table)
  {
    var s := TypeSet(t, ty, garbage).0;
    if ty == VtPortBased || ty == VtDot1q then Destroy(s, VLAN_DEFAULT).0 else s
  }

  function Load(t: Table, b: Bytes, garbage: Uplist): (r: Table)
    requires ImageOk(b)
  {
    var ty := TypeOfCode(Uint16At(b, 0));
    var base := LoadBase(t, ty, garbage);
    if ty == VtPortBased || ty == VtDot1q then LoadRows(base, ImageRows(b), |ImageRows(b)|) else base
  }

  /**
   The VLANs there when a load comes to the stored ones: all but the default, and none if
   the type changes. A type without stored VLANs resets the list, or leaves it as it is.
   */
  function Leftover(t: Table, ty: VlanType): seq<nat> {
    if !Stored(ty) then (if ty == VtCount || t.vtype == ty then Ids(t.vlans) else [VLAN_DEFAULT])
    else if t.vtype != ty then []
    else
      var k := IndexOf(t.vlans, VLAN_DEFAULT);
      if k == |t.vlans| then Ids(t.vlans) else Ids(RemoveAt(t.vlans, k))
  }

  // ---------- loading a row ----------

  /** A row that a save in this mode can have produced. */
  predicate Canonical(ty: VlanType, row: Row) {
    match ty
    case VtPortBased => row.tagged == EMPTY_UPLIST
    case VtDot1q =>
      row.ports == ToUplist(Ports(row.ports)) &&
      row.tagged == ToUplist(Ports(row.tagged) * Ports(row.ports))
    case _ => false
  }

  lemma RowOfIsCanonical(t: Table, i: nat)
    requires Inv(t) && i < |t.vlans| && (t.vtype == VtPortBased || t.vtype == VtDot1q)
    ensures Known(t) && Canonical(t.vtype, RowOf(t, i))
  {
    InvIsSaveable(t);
    if t.vtype == VtDot1q {
      assert HwAt(t, i);
      var e := t.hw[t.vlans[i].id];
      PortsAreValid(t.vlans[i].uplist);
      PortsOfToUplist(e.members);
      PortsOfToUplist(e.tagged);
      assert e.tagged * e.members == e.tagged;
    }
  }

  /** Setting VLAN j's ports changes row j to the given row and no other row. */
  lemma SetRow(t: Table, j: nat, row: Row)
    requires Inv(t) && j < |t.vlans| && t.vlans[j].id == row.id && Canonical(t.vtype, row)
    ensures
      var r := if t.vtype == VtPortBased then PvlanPortSet(t, row.id, row.ports).0
               else QvlanPortSet(t, row.id, row.ports, row.tagged).0;
      Inv(r) && r.vtype == t.vtype && |r.vlans| == |t.vlans| && Known(r) && Known(t) &&
      RowOf(r, j) == row && r.vlans[j].id == row.id &&
      forall i :: 0 <= i < |t.vlans| && i != j ==> r.vlans[i].id == t.vlans[i].id && RowOf(r, i) == RowOf(t, i)
  {
    assert IndexOf(t.vlans, row.id) == j;
    InvIsSaveable(t);
    if t.vtype == VtPortBased {
      PvlanPortSetKeepsInv(t, row.id, row.ports);
    } else {
      QvlanPortSetKeepsInv(t, row.id, row.ports, row.tagged);
      var r := QvlanPortSet(t, row.id, row.ports, row.tagged).0;
      InvIsSaveable(r);
      PortsAreValid(row.ports);
    }
  }

  /** One loaded row: a new VLAN goes last, a known one is overwritten, the others stay. */
  ghost predicate LoadsRow(t: Table, row: Row, r: Table) {
    && Inv(r) && Known(r) && Known(t) && r.vtype == t.vtype && r.maxCount == t.maxCount
    && |t.vlans| <= |r.vlans|
    && (forall i :: 0 <= i < |t.vlans| ==> r.vlans[i].id == t.vlans[i].id)
    && (forall i :: 0 <= i < |t.vlans| && t.vlans[i].id != row.id ==> RowOf(r, i) == RowOf(t, i))
    && (Has(t.vlans, row.id) ==> |r.vlans| == |t.vlans| && RowOf(r, IndexOf(t.vlans, row.id)) == row)
    && (!Has(t.vlans, row.id) && CreateStatus(t, row.id) == SysOk ==>
          |r.vlans| == |t.vlans| + 1 && RowOf(r, |t.vlans|) == row && r.vlans[|t.vlans|].id == row.id)
  }

  /** Creating a VLAN leaves the listed rows alone. */
  lemma CreateKeepsRows(t: Table, id: nat)
    requires Inv(t)
    ensures Known(t) && Known(Create(t, id)) && |t.vlans| <= |Create(t, id).vlans|
    ensures forall i :: 0 <= i < |t.vlans| ==>
              Create(t, id).vlans[i].id == t.vlans[i].id && RowOf(Create(t, id), i) == RowOf(t, i)
    ensures Has(t.vlans, id) ==> Create(t, id) == t
    ensures !Has(t.vlans, id) && CreateStatus(t, id) == SysOk ==>
              |Create(t, id).vlans| == |t.vlans| + 1 && Create(t, id).vlans[|t.vlans|].id == id
  {
    InvIsSaveable(t);
  }

  lemma LoadRowEffect(t: Table, row: Row)
    requires Inv(t) && Canonical(t.vtype, row) && (t.vtype == VtPortBased ==> row.id >= 1)
    ensures LoadsRow(t, row, LoadRow(t, row))
  {
    var c := Create(t, row.id);
    CreateKeepsInv(t, row.id);
    CreateKeepsRows(t, row.id);
    if Has(c.vlans, row.id) {
      var j := IndexOf(c.vlans, row.id);
      SetRow(c, j, row);
      SettingLoads(t, c, LoadRow(t, row), j, row);
    } else {
      assert c == t;
    }
  }

  /** Creating a VLAN and then setting its row loads the row. */
  lemma SettingLoads(t: Table, c: Table, r: Table, j: nat, row: Row)
    requires Inv(t) && Inv(c) && Inv(r) && Known(t) && Known(c) && Known(r)
    requires c.vtype == t.vtype == r.vtype && c.maxCount == t.maxCount == r.maxCount
    requires j < |c.vlans| == |r.vlans| && c.vlans[j].id == row.id && |t.vlans| <= |c.vlans| <= |t.vlans| + 1
    requires forall i :: 0 <= i < |t.vlans| ==> c.vlans[i].id == t.vlans[i].id && RowOf(c, i) == RowOf(t, i)
    requires Has(t.vlans, row.id) ==> |c.vlans| == |t.vlans|
    requires CreateStatus(t, row.id) == SysOk ==> |c.vlans| == |t.vlans| + 1 && c.vlans[|t.vlans|].id == row.id
    requires RowOf(r, j) == row && r.vlans[j].id == row.id
    requires forall i :: 0 <= i < |c.vlans| && i != j ==> r.vlans[i].id == c.vlans[i].id && RowOf(r, i) == RowOf(c, i)
    ensures LoadsRow(t, row, r)
  {
  }

  // ---------- loading all rows ----------

  predicate RowsLoadable(ty: VlanType, maxCount: nat, rows: seq<Row>) {
    && (forall i :: 0 <= i < |rows| ==> Canonical(ty, rows[i]) && IdInRange(ty, maxCount, rows[i].id))
    && (forall i, j :: 0 <= i < j < |rows| ==> rows[i].id != rows[j].id)
    && |rows| <= maxCount
  }

  /** The ids of a are a prefix of the ids of b. */
  predicate PrefixIds(a: seq<Vlan>, b: seq<Vlan>) {
    |a| <= |b| && forall i :: 0 <= i < |a| ==> b[i].id == a[i].id
  }

  lemma PrefixIdsMeans(a: seq<Vlan>, b: seq<Vlan>)
    requires PrefixIds(a, b)
    ensures Ids(a) <= Ids(b)
  {
  }

  predicate SameId(r: Table, rows: seq<Row>, i: int) {
    0 <= i < |r.vlans| && i < |rows| && r.vlans[i].id == rows[i].id
  }

  predicate SameRow(r: Table, rows: seq<Row>, i: int) {
    0 <= i < |r.vlans| && i < |rows| && (r.vtype == VtDot1q ==> r.vlans[i].id in r.hw) && RowOf(r, i) == rows[i]
  }

  /** The first k of the rows are in place; n VLANs are listed, all with the rows' ids. */
  ghost predicate LoadedUpTo(r: Table, rows: seq<Row>, k: nat, n: nat) {
    && |r.vlans| == n
    && Known(r)
    && (forall i {:trigger SameId(r, rows, i)} :: 0 <= i < n ==> SameId(r, rows, i))
    && (forall i {:trigger SameRow(r, rows, i)} :: 0 <= i < k ==> SameRow(r, rows, i))
  }

  lemma NotYetThere(s: Table, rows: seq<Row>, k: nat)
    requires k < |rows| && |s.vlans| <= k
    requires forall i {:trigger SameId(s, rows, i)} :: 0 <= i < |s.vlans| ==> SameId(s, rows, i)
    requires forall i, j :: 0 <= i < j < |rows| ==> rows[i].id != rows[j].id
    ensures !Has(s.vlans, rows[k].id)
  {
    forall j | 0 <= j < |s.vlans| ensures s.vlans[j].id != rows[k].id {
      assert SameId(s, rows, j);
    }
  }

  lemma AlreadyThere(s: Table, rows: seq<Row>, k: nat)
    requires DistinctIds(s.vlans) && SameId(s, rows, k)
    ensures IndexOf(s.vlans, rows[k].id) == k
  {
  }

  lemma LoadStep(s: Table, rows: seq<Row>, r: Table, k: nat, n: nat)
    requires RowsLoadable(s.vtype, s.maxCount, rows) && k < |rows| && k <= n
    requires LoadsRow(s, rows[k], r) && DistinctIds(s.vlans) && LoadedUpTo(s, rows, k, n)
    ensures LoadedUpTo(r, rows, k + 1, Longer(k + 1, n))
  {
    if k < n {
      assert SameId(s, rows, k);
      AlreadyThere(s, rows, k);
    } else {
      NotYetThere(s, rows, k);
    }
    forall i | 0 <= i < |r.vlans| ensures SameId(r, rows, i) {
      if i < n { assert SameId(s, rows, i); }
    }
    forall i | 0 <= i < k + 1 ensures SameRow(r, rows, i) {
      if i < k { assert SameRow(s, rows, i) && SameId(s, rows, i); }
    }
  }

  function Longer(a: nat, b: nat): nat {
    if a < b then b else a
  }

  /** The states of a load, one per row, each invariant and each loading its row. */
  ghost predicate LoadChain(ss: seq<Table>, rows: seq<Row>) {
    && |ss| >= 1 && |ss| <= |rows| + 1
    && (forall i {:trigger ss[i]} :: 0 <= i < |ss| ==>
          Inv(ss[i]) && ss[i].vtype == ss[0].vtype && ss[i].maxCount == ss[0].maxCount)
    && (forall i {:trigger rows[i]} :: 0 <= i < |ss| - 1 ==> LoadsRow(ss[i], rows[i], ss[i + 1]))
  }

  lemma ExtendChain(ss: seq<Table>, rows: seq<Row>, last: Table, row: Row, r: Table)
    requires LoadChain(ss, rows) && 0 < |ss| <= |rows| && ss[|ss| - 1] == last && rows[|ss| - 1] == row
    requires LoadsRow(last, row, r)
    ensures LoadChain(ss + [r], rows)
    ensures PrefixIds(ss[0].vlans, last.vlans) ==> PrefixIds(ss[0].vlans, r.vlans)
  {
    var more := ss + [r];
    forall i | 0 <= i < |more| - 1 ensures LoadsRow(more[i], rows[i], more[i + 1]) {
      if i < |ss| - 1 { assert LoadsRow(ss[i], rows[i], ss[i + 1]); }
    }
  }

  /** A loop step that loads every row it may be given. */
  ghost predicate Loads(step: (Table, Row) -> Table) {
    forall s, row {:trigger step(s, row)} ::
      Inv(s) && Canonical(s.vtype, row) && (s.vtype == VtPortBased ==> row.id >= 1) ==> LoadsRow(s, row, step(s, row))
  }

  lemma {:induction false} LoopStates(step: (Table, Row) -> Table, t: Table, rows: seq<Row>, k: nat)
    returns (ss: seq<Table>)
    requires Loads(step) && Inv(t) && RowsLoadable(t.vtype, t.maxCount, rows) && k <= |rows|
    ensures |ss| == k + 1 && ss[0] == t && ss[k] == Loop(step, t, rows, k)
    ensures LoadChain(ss, rows) && PrefixIds(t.vlans, ss[k].vlans)
  {
    if k == 0 {
      ss := [t];
    } else {
      var init := LoopStates(step, t, rows, k - 1);
      var last, row := init[k - 1], rows[k - 1];
      ExtendChain(init, rows, last, row, step(last, row));
      ss := init + [step(last, row)];
    }
  }

  lemma LoadRowLoads()
    ensures Loads(LoadRow)
  {
    forall s, row | Inv(s) && Canonical(s.vtype, row) && (s.vtype == VtPortBased ==> row.id >= 1)
      ensures LoadsRow(s, row, LoadRow(s, row))
    {
      LoadRowEffect(s, row);
    }
  }

  /** If what is there is a prefix of what is loaded, loading rebuilds it row by row. */
  lemma {:induction false} LoadingRebuilds(ss: seq<Table>, rows: seq<Row>, k: nat, n: nat)
    requires |ss| == |rows| + 1 && k <= |rows| && LoadChain(ss, rows)
    requires RowsLoadable(ss[0].vtype, ss[0].maxCount, rows) && LoadedUpTo(ss[0], rows, 0, n)
    ensures LoadedUpTo(ss[k], rows, k, Longer(k, n))
  {
    if k == 0 {
    } else {
      LoadingRebuilds(ss, rows, k - 1, n);
      LoadStep(ss[k - 1], rows, ss[k], k - 1, Longer(k - 1, n));
    }
  }

  // ---------- the main results ----------

  lemma LoadBaseLeavesLeftover(t: Table, ty: VlanType, g: Uplist)
    requires Inv(t)
    ensures Inv(LoadBase(t, ty, g)) && LoadBase(t, ty, g).vtype == if ty == VtCount then t.vtype else ty
    ensures Ids(LoadBase(t, ty, g).vlans) == Leftover(t, ty)
  {
    var s := TypeSet(t, ty, g).0;
    TypeSetKeepsInv(t, ty, g);
    if Stored(ty) {
      DestroyKeepsInv(s, VLAN_DEFAULT);
      var k := IndexOf(s.vlans, VLAN_DEFAULT);
      if k < |s.vlans| && ty == VtPortBased {
        var e, j := DestroyEmptiesFirst(s, VLAN_DEFAULT);
        assert Ids(RemoveAt(e.vlans, k)) == Ids(RemoveAt(s.vlans, k));
      }
    }
  }

  /** The same type and VLANs in the same order, and where the list is stored the same members and tagged members. */
  predicate Restored(t: Table, r: Table)
    requires Known(t) && Known(r)
  {
    r.vtype == t.vtype && Ids(r.vlans) == Ids(t.vlans) && (Stored(t.vtype) ==> RowsOf(r) == RowsOf(t))
  }

  /** What the VLANs that survive the start of a load must be for the saved list to come back. */
  predicate Compatible(t: Table, u: Table) {
    match t.vtype
    case VtNone => Leftover(u, VtNone) == Ids(t.vlans)
    case VtCount => u.vtype == VtCount
    case _ => Leftover(u, t.vtype) <= Ids(t.vlans)
  }

  /**
   Saving any database and loading it anywhere restores it if and only if the VLANs that
   survive the start of the load are a prefix of the saved ones, and all of them when the
   type has no stored VLANs. A load never selects the boot type.
   */
  lemma SaveThenLoad(t: Table, u: Table, g: Uplist)
    requires Inv(t) && Inv(u)
    ensures Saveable(t) && ImageOk(Image(t))
    ensures Inv(Load(u, Image(t), g)) && Known(Load(u, Image(t), g))
    ensures Restored(t, Load(u, Image(t), g)) <==> Compatible(t, u)
    ensures Stored(t.vtype) ==>
              Load(u, Image(t), g).vtype == t.vtype &&
              (RowsOf(Load(u, Image(t), g)) == RowsOf(t) <==> Leftover(u, t.vtype) <= Ids(t.vlans))
  {
    if Stored(t.vtype) {
      StoredThenLoad(t, u, g);
    } else {
      UnstoredThenLoad(t, u, g);
    }
  }

  lemma UnstoredThenLoad(t: Table, u: Table, g: Uplist)
    requires Inv(t) && Inv(u) && !Stored(t.vtype)
    ensures Saveable(t) && ImageOk(Image(t))
    ensures Inv(Load(u, Image(t), g)) && Known(Load(u, Image(t), g))
    ensures Restored(t, Load(u, Image(t), g)) <==> Compatible(t, u)
  {
    ImageReadsBack(t);
    var r := LoadBase(u, t.vtype, g);
    assert Load(u, Image(t), g) == r;
    LoadBaseLeavesLeftover(u, t.vtype, g);
    InvIsSaveable(r);
    BootTypeIsEmpty(t);
    BootTypeIsEmpty(u);
  }

  lemma BootTypeIsEmpty(t: Table)
    requires Inv(t)
    ensures t.vtype == VtCount ==> Ids(t.vlans) == []
  {
  }

  lemma StoredThenLoad(t: Table, u: Table, g: Uplist)
    requires Inv(t) && Inv(u) && Stored(t.vtype)
    ensures Saveable(t) && ImageOk(Image(t))
    ensures Inv(Load(u, Image(t), g)) && Known(Load(u, Image(t), g))
    ensures Load(u, Image(t), g).vtype == t.vtype
    ensures Restored(t, Load(u, Image(t), g)) <==> Leftover(u, t.vtype) <= Ids(t.vlans)
    ensures RowsOf(Load(u, Image(t), g)) == RowsOf(t) <==> Leftover(u, t.vtype) <= Ids(t.vlans)
  {
    ImageReadsBack(t);
    var rows := RowsOf(t);
    var base := LoadBase(u, t.vtype, g);
    LoadBaseLeavesLeftover(u, t.vtype, g);
    SavedRowsLoadable(t, base);
    LoadRowLoads();
    var ss := LoopStates(LoadRow, base, rows, |rows|);
    InvIsSaveable(ss[|rows|]);
    PrefixIdsMeans(base.vlans, ss[|rows|].vlans);
    if Ids(base.vlans) <= Ids(t.vlans) {
      InvIsSaveable(base);
      PrefixRestores(t, ss);
    }
    if RowsOf(LoadRows(base, rows, |rows|)) == rows {
      SameRowsSameIds(LoadRows(base, rows, |rows|), t);
    }
  }

  lemma SavedRowsLoadable(t: Table, base: Table)
    requires Inv(t) && Inv(base) && base.vtype == t.vtype && (t.vtype == VtPortBased || t.vtype == VtDot1q)
    ensures Known(t) && RowsLoadable(base.vtype, base.maxCount, RowsOf(t))
  {
    InvIsSaveable(t);
    forall i | 0 <= i < |t.vlans| ensures Canonical(t.vtype, RowOf(t, i)) { RowOfIsCanonical(t, i); }
  }

  lemma PrefixRestores(t: Table, ss: seq<Table>)
    requires Known(t) && |ss| == |t.vlans| + 1 && Known(ss[0]) && ss[|t.vlans|].vtype == t.vtype
    requires LoadChain(ss, RowsOf(t)) && RowsLoadable(ss[0].vtype, ss[0].maxCount, RowsOf(t))
    requires Ids(ss[0].vlans) <= Ids(t.vlans)
    ensures Known(ss[|t.vlans|]) && RowsOf(ss[|t.vlans|]) == RowsOf(t)
  {
    var rows := RowsOf(t);
    forall i | 0 <= i < |ss[0].vlans| ensures SameId(ss[0], rows, i) {
      assert Ids(ss[0].vlans)[i] == Ids(t.vlans)[i];
    }
    assert |ss[0].vlans| == |Ids(ss[0].vlans)| <= |rows|;
    LoadingRebuilds(ss, rows, |rows|, |ss[0].vlans|);
    var r := ss[|rows|];
    forall i | 0 <= i < |rows| ensures RowsOf(r)[i] == rows[i] {
      assert SameRow(r, rows, i);
    }
  }

  lemma SameRowsSameIds(r: Table, t: Table)
    requires Known(r) && Known(t) && RowsOf(r) == RowsOf(t)
    ensures Ids(r.vlans) == Ids(t.vlans)
  {
    forall i | 0 <= i < |t.vlans| ensures r.vlans[i].id == t.vlans[i].id {
      assert RowsOf(r)[i].id == RowsOf(t)[i].id;
    }
    assert |r.vlans| == |RowsOf(r)| == |t.vlans|;
  }

  /** The cases the firmware meets: another type in force, or at most the default VLAN. */
  lemma LoadIntoFreshRestores(t: Table, u: Table, g: Uplist)
    requires Inv(t) && Inv(u)
    requires u.vtype != t.vtype || u.vlans == [] || (|u.vlans| == 1 && u.vlans[0].id == VLAN_DEFAULT)
    ensures Saveable(t) && ImageOk(Image(t)) && Inv(Load(u, Image(t), g)) && Known(Load(u, Image(t), g))
    ensures Stored(t.vtype) ==> Restored(t, Load(u, Image(t), g))
    ensures t.vtype == VtNone ==>
              (Restored(t, Load(u, Image(t), g)) <==>
               Ids(t.vlans) == if u.vtype == VtNone then Ids(u.vlans) else [VLAN_DEFAULT])
  {
    SaveThenLoad(t, u, g);
    assert Stored(t.vtype) ==> Leftover(u, t.vtype) == [];
  }

  /** After a boot: the type is selected. */
  lemma TypeSelected(boot: Table, ty: VlanType, g: Uplist) returns (t: Table)
    requires Booted(boot) && ty != VtCount
    ensures t == TypeSet(boot, ty, g).0 && Reachable(t) && Inv(t)
    ensures t.vtype == ty && Ids(t.vlans) == [VLAN_DEFAULT]
  {
    BootedReachable(boot);
    t := StepReachable(boot, OpTypeSet(ty, g));
    ReachableInv(t);
  }

  /** The list of a switch without a VLAN type is emptied, saved and loaded elsewhere: the default VLAN is back. */
  lemma EmptiedListComesBack(boot: Table, g: Uplist) returns (t: Table, u: Table)
    requires Booted(boot)
    ensures Reachable(t) && Reachable(u) && t.vlans == [] && t.vtype == VtNone && u.vtype == VtDot1q
    ensures Saveable(t) && ImageOk(Image(t)) && Ids(Load(u, Image(t), g).vlans) == [VLAN_DEFAULT]
  {
    t := TypeSelected(boot, VtNone, g);
    assert Has(t.vlans, VLAN_DEFAULT) by {
      assert t.vlans[0].id == Ids(t.vlans)[0];
    }
    t := StepReachable(t, OpDestroy(VLAN_DEFAULT));
    u := TypeSelected(boot, VtDot1q, g);
    ReachableInv(t);
    ImageReadsBack(t);
    LoadBaseLeavesLeftover(u, VtNone, g);
  }

  lemma DefaultGoesFirst(u: Table, ty: VlanType, id: nat)
    requires Ids(u.vlans) == [VLAN_DEFAULT, id] && u.vtype == ty && Stored(ty)
    ensures Leftover(u, ty) == [id]
  {
    assert |u.vlans| == |Ids(u.vlans)| == 2 && u.vlans[0].id == Ids(u.vlans)[0] && u.vlans[1].id == Ids(u.vlans)[1];
    assert IndexOf(u.vlans, VLAN_DEFAULT) == 0;
  }

  lemma SecondVlan(t: Table, id: nat) returns (u: Table)
    requires Reachable(t) && Inv(t) && t.vtype == VtDot1q && Ids(t.vlans) == [VLAN_DEFAULT] && 2 <= id <= 4094
    ensures Reachable(u) && Inv(u) && u.vtype == VtDot1q && Ids(u.vlans) == [VLAN_DEFAULT, id]
  {
    assert |t.vlans| == |Ids(t.vlans)| == 1 && t.vlans[0].id == Ids(t.vlans)[0];
    u := StepReachable(t, OpCreate(id));
    ReachableInv(u);
  }

  lemma StrangerStays(t: Table, u: Table, id: nat, g: Uplist)
    requires Inv(t) && Inv(u) && t.vtype == u.vtype == VtDot1q
    requires Ids(t.vlans) == [VLAN_DEFAULT] && Ids(u.vlans) == [VLAN_DEFAULT, id] && id != VLAN_DEFAULT
    ensures Saveable(t) && ImageOk(Image(t)) && Known(Load(u, Image(t), g)) && !Restored(t, Load(u, Image(t), g))
  {
    DefaultGoesFirst(u, VtDot1q, id);
    assert Leftover(u, VtDot1q)[0] != Ids(t.vlans)[0];
    SaveThenLoad(t, u, g);
  }

  /** A load into the same type that keeps a VLAN the image does not start with. */
  lemma SameTypeLoadKeepsStranger(boot: Table, g: Uplist) returns (t: Table, u: Table)
    requires Booted(boot)
    ensures Reachable(t) && Reachable(u) && t.vtype == u.vtype == VtDot1q
    ensures Ids(t.vlans) == [VLAN_DEFAULT] && Ids(u.vlans) == [VLAN_DEFAULT, 5]
    ensures Saveable(t) && ImageOk(Image(t)) && Known(Load(u, Image(t), g)) && !Restored(t, Load(u, Image(t), g))
  {
    t := TypeSelected(boot, VtDot1q, g);
    u := SecondVlan(t, 5);
    StrangerStays(t, u, 5, g);
  }

  // ---------- port VLAN ids ----------

  predicate PvidsFit(t: Table) {
    forall p :: p in ALL_PORTS ==> t.pvid[p] < 0x1_0000
  }

  /** pvid_serializer's save loop over ports 1, ..., n. */
  function PvidImage(t: Table, n: nat): (r: Bytes)
    requires PvidsFit(t) && n <= UPORT_COUNT
    ensures |r| == 2 * n
  {
    if n == 0 then []
    else PvidImage(t, n - 1) + Uint16Bytes(if t.vtype == VtDot1q then t.pvid[n] else 1)
  }

  function PvidLoad(t: Table, b: Bytes, n: nat): (r: Table)
    requires n <= UPORT_COUNT && 2 * n <= |b|
    ensures r == t.(pvid := r.pvid)
  {
    if n == 0 then t
    else
      var r := PvidLoad(t, b, n - 1);
      if t.vtype == VtDot1q then r.(pvid := r.pvid[n := Uint16At(b, 2 * (n - 1))]) else r
  }

  lemma {:induction false} PvidImageAt(t: Table, n: nat, p: nat)
    requires PvidsFit(t) && t.vtype == VtDot1q && 1 <= p <= n <= UPORT_COUNT
    ensures Uint16At(PvidImage(t, n), 2 * (p - 1)) == t.pvid[p]
  {
    var init, last := PvidImage(t, n - 1), Uint16Bytes(t.pvid[n]);
    if p == n {
      assert PvidImage(t, n) == init + last + [];
      Uint16RoundTrip(init, t.pvid[p], []);
    } else {
      PvidImageAt(t, n - 1, p);
    }
  }

  lemma {:induction false} PvidLoadAt(t: Table, b: Bytes, n: nat, p: int)
    requires n <= UPORT_COUNT && 2 * n <= |b| && p in ALL_PORTS
    ensures PvidLoad(t, b, n).pvid[p] ==
            if t.vtype == VtDot1q && p <= n then Uint16At(b, 2 * (p - 1)) else t.pvid[p]
  {
    if n == 0 {
    } else {
      PvidLoadAt(t, b, n - 1, p);
    }
  }

  /** After the VLAN load, loading the port VLAN ids restores every one in 802.1Q mode. */
  lemma PvidSaveThenLoad(t: Table, u: Table)
    requires PvidsFit(t) && t.vtype == u.vtype
    ensures forall p :: p in ALL_PORTS ==>
              PvidLoad(u, PvidImage(t, UPORT_COUNT), UPORT_COUNT).pvid[p] ==
              if t.vtype == VtDot1q then t.pvid[p] else u.pvid[p]
  {
    var b := PvidImage(t, UPORT_COUNT);
    forall p | p in ALL_PORTS
      ensures PvidLoad(u, b, UPORT_COUNT).pvid[p] == if t.vtype == VtDot1q then t.pvid[p] else u.pvid[p]
    {
      PvidLoadAt(u, b, UPORT_COUNT, p);
      if t.vtype == VtDot1q {
        PvidImageAt(t, UPORT_COUNT, p);
      }
    }
  }

  // ---------- factory defaults ----------

  /** One visit of the defaults loop to the VLAN with this id. */
  function DefaultVisit(t: Table, id: nat): (r: Table)
  {
    if id == VLAN_DEFAULT then QvlanPortSet(t, id, FULL_UPLIST, EMPTY_UPLIST).0
    else Destroy(t, id).0
  }

  /** The loop over indices n-1, ..., 0 of the list as it is at each visit. */
  function DefaultsLoop(t: Table, n: nat): (r: Table)
    decreases n
  {
    if n == 0 || n > |t.vlans| then t
    else DefaultsLoop(DefaultVisit(t, t.vlans[n - 1].id), n - 1)
  }

  function DefaultPvids(v: PortIds): PortIds {
    v[..1] + seq(UPORT_COUNT, _ => VLAN_DEFAULT as nat)
  }

  function LoadDefaults(t: Table, garbage: Uplist): Table
  {
    if t.vtype == VtDot1q then DefaultsLoop(t.(pvid := DefaultPvids(t.pvid)), |t.vlans|)
    else TypeSet(t, VtDot1q, garbage).0
  }

  /** The tail of the list that the loop has already dealt with. */
  predicate Cleaned(vlans: seq<Vlan>, n: nat) {
    n <= |vlans| <= n + 1 && (|vlans| == n + 1 ==> vlans[n] == Vlan(VLAN_DEFAULT, FULL_UPLIST))
  }

  lemma DefaultVisitCleans(t: Table, n: nat)
    requires Inv(t) && t.vtype == VtDot1q && 1 <= n && Cleaned(t.vlans, n)
    ensures
      var id := t.vlans[n - 1].id;
      var r := DefaultVisit(t, id);
      Inv(r) && r.vtype == VtDot1q && Cleaned(r.vlans, n - 1) &&
      r.vlans[..n - 1] == t.vlans[..n - 1] && r.pvid == t.pvid &&
      (Has(r.vlans, VLAN_DEFAULT) <==> Has(t.vlans, VLAN_DEFAULT)) &&
      (id == VLAN_DEFAULT ==> r.hw == t.hw[id := QEntry(ALL_PORTS, {})]) &&
      (id != VLAN_DEFAULT ==> r.hw == t.hw - {id})
  {
    var id := t.vlans[n - 1].id;
    var r := DefaultVisit(t, id);
    assert IndexOf(t.vlans, id) == n - 1;
    FullHasAllPorts();
    EmptyHasNoPorts();
    if id == VLAN_DEFAULT {
      QvlanPortSetKeepsInv(t, id, FULL_UPLIST, EMPTY_UPLIST);
      assert r.vlans[n - 1] == Vlan(VLAN_DEFAULT, FULL_UPLIST);
      var none: set<int> := {};
      assert none * ALL_PORTS == none;
      assert |t.vlans| == n;
      assert Has(r.vlans, VLAN_DEFAULT);
    } else {
      DestroyKeepsInv(t, id);
      assert r.vlans == RemoveAt(t.vlans, n - 1);
      var d := IndexOf(t.vlans, VLAN_DEFAULT);
      if d < |t.vlans| {
        assert r.vlans[if d < n - 1 then d else d - 1].id == VLAN_DEFAULT;
      }
      var e := IndexOf(r.vlans, VLAN_DEFAULT);
      if e < |r.vlans| {
        assert t.vlans[if e < n - 1 then e else e + 1].id == VLAN_DEFAULT;
      }
    }
  }

  /**
   The walk from the last index to the first, deleting as it goes: each visit meets the
   VLAN that the original list had at that index, and only the default VLAN is left.
   */
  lemma {:induction false} DefaultsLoopCleans(t: Table, n: nat)
    requires Inv(t) && t.vtype == VtDot1q && Cleaned(t.vlans, n)
    ensures
      var r := DefaultsLoop(t, n);
      Inv(r) && r.vtype == VtDot1q && r.pvid == t.pvid &&
      r.vlans == (if Has(t.vlans, VLAN_DEFAULT) then [Vlan(VLAN_DEFAULT, FULL_UPLIST)] else [])
    decreases n
  {
    if n > 0 {
      DefaultVisitCleans(t, n);
      DefaultsLoopCleans(DefaultVisit(t, t.vlans[n - 1].id), n - 1);
    } else {
      assert t.vlans == (if |t.vlans| == 0 then [] else [t.vlans[0]]);
    }
  }

  /** The switch forgets every VLAN the walk deletes and learns none but the default. */
  lemma {:induction false} DefaultsLoopHw(t: Table, n: nat, id: nat)
    requires Inv(t) && t.vtype == VtDot1q && Cleaned(t.vlans, n) && id != VLAN_DEFAULT
    ensures id in DefaultsLoop(t, n).hw ==> id in t.hw && IndexOf(t.vlans, id) >= n
    decreases n
  {
    if n == 0 {
    } else {
      DefaultVisitCleans(t, n);
      var s := DefaultVisit(t, t.vlans[n - 1].id);
      DefaultsLoopHw(s, n - 1, id);
      var k := IndexOf(t.vlans, id);
      if k < n - 1 {
        assert s.vlans[k] == s.vlans[..n - 1][k] == t.vlans[..n - 1][k];
        assert IndexOf(s.vlans, id) <= k;
      }
    }
  }

  predicate DefaultOnAllPorts(t: Table) {
    VLAN_DEFAULT in t.hw && t.hw[VLAN_DEFAULT] == QEntry(ALL_PORTS, {})
  }

  lemma VisitKeepsDefault(t: Table, n: nat) returns (s: Table)
    requires Inv(t) && t.vtype == VtDot1q && Cleaned(t.vlans, n) && n > 0 && DefaultOnAllPorts(t)
    ensures Inv(s) && s.vtype == VtDot1q && Cleaned(s.vlans, n - 1) && DefaultOnAllPorts(s)
    ensures DefaultsLoop(t, n) == DefaultsLoop(s, n - 1)
  {
    DefaultVisitCleans(t, n);
    s := DefaultVisit(t, t.vlans[n - 1].id);
  }

  /** Once visited, the default VLAN stays untagged on all ports. */
  lemma {:induction false} DefaultStays(t: Table, n: nat)
    requires Inv(t) && t.vtype == VtDot1q && Cleaned(t.vlans, n) && DefaultOnAllPorts(t)
    ensures DefaultOnAllPorts(DefaultsLoop(t, n))
    decreases n
  {
    if n == 0 {
    } else {
      var s := VisitKeepsDefault(t, n);
      DefaultStays(s, n - 1);
    }
  }

  /** Factory defaults in 802.1Q mode. */
  lemma LoadDefaultsLeavesDefaultVlan(t: Table, g: Uplist)
    requires Inv(t) && t.vtype == VtDot1q
    ensures
      var r := LoadDefaults(t, g);
      Inv(r) && r.vtype == VtDot1q && (forall p :: p in ALL_PORTS ==> r.pvid[p] == VLAN_DEFAULT) &&
      r.vlans == (if Has(t.vlans, VLAN_DEFAULT) then [Vlan(VLAN_DEFAULT, FULL_UPLIST)] else [])
    ensures forall id :: id in LoadDefaults(t, g).hw ==> id == VLAN_DEFAULT || (id in t.hw && !Has(t.vlans, id))
    ensures Has(t.vlans, VLAN_DEFAULT) ==>
              VLAN_DEFAULT in LoadDefaults(t, g).hw &&
              LoadDefaults(t, g).hw[VLAN_DEFAULT].members == ALL_PORTS &&
              LoadDefaults(t, g).hw[VLAN_DEFAULT].tagged == {}
  {
    var s := t.(pvid := DefaultPvids(t.pvid));
    forall i | 0 <= i < |s.vlans| ensures HwAt(s, i) { assert HwAt(t, i); }
    DefaultsLoopCleans(s, |s.vlans|);
    var r := LoadDefaults(t, g);
    FullHasAllPorts();
    if Has(t.vlans, VLAN_DEFAULT) {
      assert HwAt(r, 0);
      DefaultTagged(s, |s.vlans|);
    }
    forall id | id in r.hw && id != VLAN_DEFAULT ensures id in t.hw && !Has(t.vlans, id) {
      DefaultsLoopHw(s, |s.vlans|, id);
    }
  }

  /** The walk reaches the default VLAN and leaves it untagged on all ports. */
  lemma {:induction false} DefaultTagged(t: Table, n: nat)
    requires Inv(t) && t.vtype == VtDot1q && Cleaned(t.vlans, n) && IndexOf(t.vlans, VLAN_DEFAULT) < n
    ensures VLAN_DEFAULT in DefaultsLoop(t, n).hw
    ensures DefaultsLoop(t, n).hw[VLAN_DEFAULT] == QEntry(ALL_PORTS, {})
    decreases n
  {
    DefaultVisitCleans(t, n);
    var s := DefaultVisit(t, t.vlans[n - 1].id);
    var d := IndexOf(t.vlans, VLAN_DEFAULT);
    if d == n - 1 {
      DefaultStays(s, n - 1);
    } else {
      assert s.vlans[d] == s.vlans[..n - 1][d] == t.vlans[..n - 1][d];
      DefaultTagged(s, n - 1);
    }
  }
}
