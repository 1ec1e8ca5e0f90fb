/**
 serializers/vlan.c: the loops that move the VLAN database and the port VLAN ids
 between memory and a byte medium, proved against the images of VlanImage.
 */
module VlanSerializer {
  import opened Uplists
  import opened VlanTable
  import opened VlanImage
  import opened VlanDatabase

  /** The part of SERL_MEDIUM_BIN the serializers use: a byte string and a read position. */
  class Medium {
    var data: Bytes
    var pos: nat

    constructor ()
      ensures data == [] && pos == 0
    {
      data, pos := [], 0;
    }

    method Write(b: Bytes)
      modifies this
      ensures data == old(data) + b && pos == old(pos)
    {
      data := data + b;
    }

    method WriteUint16(v: nat)
      requires v < 0x1_0000
      modifies this
      ensures data == old(data) + Uint16Bytes(v) && pos == old(pos)
    {
      data := data + Uint16Bytes(v);
    }

    method Read(n: nat) returns (b: Bytes)
      requires pos + n <= |data|
      modifies this
      ensures data == old(data) && pos == old(pos) + n
      ensures b == old(data[pos..pos + n])
    {
      b := data[pos..pos + n];
      pos := pos + n;
    }

    method ReadUint16() returns (v: nat)
      requires pos + 2 <= |data|
      modifies this
      ensures data == old(data) && pos == old(pos) + 2
      ensures v == old(Uint16At(data, pos))
    {
      v := Uint16At(data, pos);
      pos := pos + 2;
    }

    /** "Consume remaining bytes" of a save. */
    method Pad(n: nat)
      requires n <= MAX_VLAN_SERIALIZED_LEN
      modifies this
      ensures data == old(data) + Padding(MAX_VLAN_SERIALIZED_LEN - n) && pos == old(pos)
    {
      for i := 0 to n
        invariant data == old(data) + seq(i, _ => 0) && pos == old(pos)
      {
        Write([0]);
      }
    }

    /** "Consume remaining bytes" of a load. */
    method Skip(n: nat)
      requires pos + n <= |data|
      modifies this
      ensures data == old(data) && pos == old(pos) + n
    {
      for i := 0 to n
        invariant data == old(data) && pos == old(pos) + i
      {
        var _ := Read(1);
      }
    }
  }

  /** A VLAN is found at its own position. */
  lemma FoundAt(t: Table, i: nat)
    requires DistinctIds(t.vlans) && i < |t.vlans|
    ensures IndexOf(t.vlans, t.vlans[i].id) == i
  {
  }

  /** An image is its type, its count, its rows and padding, written one after the other. */
  lemma ImageParts(t: Table, d: Bytes)
    requires Saveable(t)
    ensures d + Image(t) ==
            d + Uint16Bytes(TypeCode(t.vtype)) + Uint16Bytes(|t.vlans|) + RowsBytes(t.vtype, RowsOf(t))
            + Padding(4 + RowsLen(t.vtype, |t.vlans|))
  {
    Flatten(d, Uint16Bytes(TypeCode(t.vtype)), Uint16Bytes(|t.vlans|), RowsBytes(t.vtype, RowsOf(t)),
            Padding(4 + RowsLen(t.vtype, |t.vlans|)));
  }

  lemma Flatten(d: Bytes, a: Bytes, b: Bytes, c: Bytes, e: Bytes)
    ensures d + (a + b + c + e) == d + a + b + c + e
  {
  }

  lemma SubSlice(b: Bytes, data: Bytes, start: nat, i: nat, j: nat)
    requires start + |b| <= |data| && b == data[start..start + |b|] && i <= j <= |b|
    ensures b[i..j] == data[start + i..start + j]
  {
    assert forall k :: 0 <= k < |b| ==> b[k] == data[start + k];
  }

  lemma SameUint16(b: Bytes, data: Bytes, start: nat, i: nat)
    requires start + |b| <= |data| && b == data[start..start + |b|] && i + 2 <= |b|
    ensures Uint16At(b, i) == Uint16At(data, start + i)
  {
    assert b[i] == data[start + i] && b[i + 1] == data[start + i + 1];
  }

  lemma SameRowAt(ty: VlanType, b: Bytes, off: nat, data: Bytes, pos: nat)
    requires off <= pos && pos - off + |b| <= |data| && b == data[pos - off..pos - off + |b|]
    requires off + RowLen(ty) <= |b|
    ensures RowAt(ty, b, off) == RowAt(ty, data, pos)
  {
    if ty == VtPortBased || ty == VtDot1q {
      SameUint16(b, data, pos - off, off);
      SubSlice(b, data, pos - off, off + 2, off + 10);
    }
    if ty == VtDot1q {
      SubSlice(b, data, pos - off, off + 10, off + 18);
    }
  }

  /** What the pieces of row i are in the medium that holds the image. */
  lemma RowPieces(b: Bytes, i: nat, data: Bytes, pos: nat)
    requires ImageOk(b) && i < Uint16At(b, 2)
    requires
      var off := 4 + RowsLen(TypeOfCode(Uint16At(b, 0)), i);
      off <= pos && pos - off + |b| <= |data| && b == data[pos - off..pos - off + |b|]
    ensures
      var ty := TypeOfCode(Uint16At(b, 0));
      pos + RowLen(ty) <= |data| &&
      (ty == VtPortBased || ty == VtDot1q ==>
        ImageRow(b, i) == Row(Uint16At(data, pos), data[pos + 2..pos + 10],
                              if ty == VtDot1q then data[pos + 10..pos + 18] else EMPTY_UPLIST))
  {
    var ty := TypeOfCode(Uint16At(b, 0));
    var off := 4 + RowsLen(ty, i);
    assert RowsLen(ty, i + 1) <= RowsLen(ty, Uint16At(b, 2));
    SameRowAt(ty, b, off, data, pos);
  }

  /** vlan_serializer, SERIALIZE_OP_SAVE. */
  method SaveVlans(db: VlanDb, medium: Medium) returns (length: nat)
    requires db.Valid() && Inv(db.Abs())
    modifies medium
    ensures Saveable(db.Abs()) && medium.data == old(medium.data) + Image(db.Abs())
    ensures length == MAX_VLAN_SERIALIZED_LEN
  {
    InvIsSaveable(db.Abs());
    medium.WriteUint16(TypeCode(db.vtype));
    medium.WriteUint16(db.count);
    SaveRows(db, medium);
    medium.Pad(MAX_VLAN_SERIALIZED_LEN - (4 + RowsLen(db.vtype, db.count)));
    ImageParts(db.Abs(), old(medium.data));
    return MAX_VLAN_SERIALIZED_LEN;
  }

  /** What a save needs of the database. */
  ghost predicate SaveInv(t: Table) {
    Saveable(t) && DistinctIds(t.vlans) && (t.vtype == VtDot1q ==> HwInv(t))
  }

  lemma Assoc(a: Bytes, b: Bytes, c: Bytes)
    ensures a + b + c == a + (b + c)
  {
  }

  /** The two save loops over list indices. */
  method SaveRows(db: VlanDb, medium: Medium)
    requires db.Valid() && SaveInv(db.Abs())
    modifies medium
    ensures medium.data == old(medium.data) + RowsBytes(db.vtype, RowsOf(db.Abs()))
  {
    ghost var pieces := Pieces(db.vtype, RowsOf(db.Abs()));
    for i := 0 to db.count
      invariant medium.data == old(medium.data) + Concat(pieces, i)
    {
      SaveRow(db, medium, i, pieces);
      Assoc(old(medium.data), Concat(pieces, i), pieces[i]);
    }
  }

  method SaveRow(db: VlanDb, medium: Medium, i: nat, ghost pieces: seq<Bytes>)
    requires db.Valid() && SaveInv(db.Abs()) && i < db.count
    requires pieces == Pieces(db.vtype, RowsOf(db.Abs()))
    modifies medium
    ensures medium.data == old(medium.data) + pieces[i]
  {
    if db.vtype == VtPortBased {
      SavePortBasedRow(db, medium, i);
    } else if db.vtype == VtDot1q {
      SaveDot1qRow(db, medium, i);
    } else {
      assert medium.data == medium.data + [];
    }
  }

  method SavePortBasedRow(db: VlanDb, medium: Medium, i: nat)
    requires db.Valid() && Saveable(db.Abs()) && i < db.count
    requires db.vtype == VtPortBased && DistinctIds(db.vlans)
    modifies medium
    ensures medium.data == old(medium.data) + RowBytes(VtPortBased, RowOf(db.Abs(), i))
  {
    var _, id := db.GetIdByIndex(i);
    FoundAt(db.Abs(), i);
    var _, uplist := db.PvlanPortGet(id);
    medium.WriteUint16(id);
    medium.Write(uplist);
  }

  method SaveDot1qRow(db: VlanDb, medium: Medium, i: nat)
    requires db.Valid() && Saveable(db.Abs()) && i < db.count
    requires db.vtype == VtDot1q && HwInv(db.Abs())
    modifies medium
    ensures medium.data == old(medium.data) + RowBytes(VtDot1q, RowOf(db.Abs(), i))
  {
    assert HwAt(db.Abs(), i);
    var _, id, uplist, taguplist := db.GetByIndex(i, ErrNotFound);
    medium.WriteUint16(id);
    medium.Write(uplist);
    medium.Write(taguplist);
  }

  /** vlan_serializer, SERIALIZE_OP_LOAD. */
  method LoadVlans(db: VlanDb, medium: Medium, garbage: Uplist) returns (length: nat)
    requires db.Valid()
    requires medium.pos + MAX_VLAN_SERIALIZED_LEN <= |medium.data|
    requires ImageOk(medium.data[medium.pos..medium.pos + MAX_VLAN_SERIALIZED_LEN])
    modifies db, db.repr, medium
    ensures db.Valid() && length == MAX_VLAN_SERIALIZED_LEN
    ensures medium.data == old(medium.data) && medium.pos == old(medium.pos) + MAX_VLAN_SERIALIZED_LEN
    ensures db.Abs() ==
            Load(old(db.Abs()), old(medium.data[medium.pos..medium.pos + MAX_VLAN_SERIALIZED_LEN]), garbage)
  {
    ghost var b := medium.data[medium.pos..medium.pos + MAX_VLAN_SERIALIZED_LEN];
    var code := medium.ReadUint16();
    var count := medium.ReadUint16();
    assert code == Uint16At(b, 0) && count == Uint16At(b, 2);
    var ty := TypeOfCode(code);
    SelectType(db, ty, garbage);
    var used := 4;
    if ty == VtPortBased || ty == VtDot1q {
      LoadStoredRows(db, medium, count, b);
      used := used + RowsLen(ty, count);
    }
    medium.Skip(MAX_VLAN_SERIALIZED_LEN - used);
    return MAX_VLAN_SERIALIZED_LEN;
  }

  /** Select the stored type and clear the default VLAN. */
  method SelectType(db: VlanDb, ty: VlanType, garbage: Uplist)
    requires db.Valid()
    modifies db, db.repr
    ensures db.Valid() && db.repr >= old(db.repr) && fresh(db.repr - old(db.repr))
    ensures db.Abs() == LoadBase(old(db.Abs()), ty, garbage)
    ensures ty == VtPortBased || ty == VtDot1q ==> db.vtype == ty
  {
    var _ := db.TypeSet(ty, garbage);
    if ty == VtPortBased || ty == VtDot1q {
      var _ := db.Destroy(VLAN_DEFAULT);
    }
  }

  /** The medium stands at row i of the image b. */
  ghost predicate AtRow(medium: Medium, b: Bytes, ty: VlanType, i: nat)
    requires ImageOk(b)
    reads medium
  {
    var off := 4 + RowsLen(ty, i);
    off <= medium.pos && medium.pos - off + |b| <= |medium.data| &&
    b == medium.data[medium.pos - off..medium.pos - off + |b|]
  }

  lemma LoadRowsStep(t: Table, b: Bytes, i: nat)
    requires ImageOk(b) && i < Uint16At(b, 2)
    ensures LoadRows(t, ImageRows(b), i + 1) == LoadRow(LoadRows(t, ImageRows(b), i), ImageRow(b, i))
  {
  }

  /** The two load loops: read a row, create its VLAN, set its ports. */
  method LoadStoredRows(db: VlanDb, medium: Medium, count: nat, ghost b: Bytes)
    requires db.Valid() && ImageOk(b) && db.vtype == TypeOfCode(Uint16At(b, 0)) && count == Uint16At(b, 2)
    requires db.vtype == VtPortBased || db.vtype == VtDot1q
    requires AtRow(medium, b, db.vtype, 0)
    modifies db, db.repr, medium
    ensures db.Valid()
    ensures medium.data == old(medium.data) && medium.pos == old(medium.pos) + RowsLen(old(db.vtype), count)
    ensures db.Abs() == LoadRows(old(db.Abs()), ImageRows(b), count)
  {
    for i := 0 to count
      invariant db.Valid() && db.vtype == old(db.vtype) && db.repr >= old(db.repr) && fresh(db.repr - old(db.repr))
      invariant medium.data == old(medium.data) && medium.pos == old(medium.pos) + RowsLen(db.vtype, i)
      invariant db.Abs() == LoadRows(old(db.Abs()), ImageRows(b), i)
    {
      LoadStoredRow(db, medium, i, b, old(db.Abs()));
    }
  }

  method LoadStoredRow(db: VlanDb, medium: Medium, ghost i: nat, ghost b: Bytes, ghost t: Table)
    requires db.Valid() && ImageOk(b) && db.vtype == TypeOfCode(Uint16At(b, 0)) && i < Uint16At(b, 2)
    requires db.vtype == VtPortBased || db.vtype == VtDot1q
    requires AtRow(medium, b, db.vtype, i) && db.Abs() == LoadRows(t, ImageRows(b), i)
    modifies db, db.repr, medium
    ensures db.Valid() && db.repr >= old(db.repr) && fresh(db.repr - old(db.repr))
    ensures medium.data == old(medium.data) && medium.pos == old(medium.pos) + RowLen(old(db.vtype))
    ensures db.vtype == old(db.vtype) && db.Abs() == LoadRows(t, ImageRows(b), i + 1)
  {
    var row := ReadRow(db.vtype, medium, i, b);
    var _ := db.Create(row.id);
    if db.vtype == VtPortBased {
      var _ := db.PvlanPortSet(row.id, row.ports);
    } else {
      var _ := db.QvlanPortSet(row.id, row.ports, row.tagged);
    }
    LoadRowsStep(t, b, i);
  }

  method ReadRow(ty: VlanType, medium: Medium, ghost i: nat, ghost b: Bytes) returns (row: Row)
    requires ImageOk(b) && ty == TypeOfCode(Uint16At(b, 0)) && i < Uint16At(b, 2)
    requires ty == VtPortBased || ty == VtDot1q
    requires AtRow(medium, b, ty, i)
    modifies medium
    ensures medium.data == old(medium.data) && medium.pos == old(medium.pos) + RowLen(ty)
    ensures row == ImageRow(b, i)
  {
    RowPieces(b, i, medium.data, medium.pos);
    var id := medium.ReadUint16();
    var uplist := medium.Read(MAX_UPLIST_WIDTH);
    var taguplist: Uplist := EMPTY_UPLIST;
    if ty == VtDot1q {
      taguplist := medium.Read(MAX_UPLIST_WIDTH);
    }
    row := Row(id, uplist, taguplist);
  }

  /** pvid_serializer, SERIALIZE_OP_SAVE. */
  method SavePvids(db: VlanDb, medium: Medium) returns (length: nat)
    requires PvidsFit(db.Abs())
    modifies medium
    ensures medium.data == old(medium.data) + PvidImage(db.Abs(), UPORT_COUNT)
    ensures length == 2 * UPORT_COUNT
  {
    for i := 1 to UPORT_COUNT + 1
      invariant medium.data == old(medium.data) + PvidImage(db.Abs(), i - 1)
    {
      assert i in ALL_PORTS;
      medium.WriteUint16(if db.vtype == VtDot1q then db.pvid[i] else 1);
    }
    return UPORT_COUNT * 2;
  }

  /** pvid_serializer, SERIALIZE_OP_LOAD. */
  method LoadPvids(db: VlanDb, medium: Medium) returns (length: nat)
    requires medium.pos + 2 * UPORT_COUNT <= |medium.data|
    modifies db`pvid, medium
    ensures medium.data == old(medium.data) && medium.pos == old(medium.pos) + length
    ensures length == 2 * UPORT_COUNT
    ensures db.Abs() == PvidLoad(old(db.Abs()), old(medium.data[medium.pos..]), UPORT_COUNT)
  {
    ghost var b := medium.data[medium.pos..];
    for i := 1 to UPORT_COUNT + 1
      invariant medium.data == old(medium.data) && medium.pos == old(medium.pos) + 2 * (i - 1)
      invariant db.Abs() == PvidLoad(old(db.Abs()), b, i - 1)
    {
      var vlanId := medium.ReadUint16();
      if db.vtype == VtDot1q {
        db.pvid := db.pvid[i := vlanId];
      }
    }
    return UPORT_COUNT * 2;
  }

  /** vlan_serializer, SERIALIZE_OP_LOAD_DEFAULTS. */
  method LoadDefaultVlans(db: VlanDb, garbage: Uplist)
    requires db.Valid() && Inv(db.Abs())
    modifies db, db.repr
    ensures db.Valid() && db.Abs() == LoadDefaults(old(db.Abs()), garbage)
  {
    if db.vtype == VtDot1q {
      ResetPvids(db);
      assert Inv(db.Abs()) by { PvidsDoNotMatter(old(db.Abs()), db.Abs()); }
      DeleteFromLast(db);
    } else {
      var _ := db.TypeSet(VtDot1q, garbage);
    }
  }

  lemma PvidsDoNotMatter(t: Table, u: Table)
    requires Inv(t) && u == t.(pvid := u.pvid) && t.vtype == VtDot1q
    ensures Inv(u)
  {
    forall i | 0 <= i < |u.vlans| ensures HwAt(u, i) { assert HwAt(t, i); }
  }

  method ResetPvids(db: VlanDb)
    modifies db`pvid
    ensures db.pvid == DefaultPvids(old(db.pvid))
  {
    for i := 1 to UPORT_COUNT + 1
      invariant forall p :: 1 <= p < i ==> db.pvid[p] == VLAN_DEFAULT
      invariant forall p :: p == 0 || i <= p <= UPORT_COUNT ==> db.pvid[p] == old(db.pvid)[p]
    {
      if db.pvid[i] != VLAN_DEFAULT {
        db.pvid := db.pvid[i := VLAN_DEFAULT];
      }
    }
  }

  /** The loop that visits the indices downwards while it deletes from the same list. */
  method DeleteFromLast(db: VlanDb)
    requires db.Valid() && Inv(db.Abs()) && db.vtype == VtDot1q
    modifies db, db.repr
    ensures db.Valid() && db.Abs() == DefaultsLoop(old(db.Abs()), |old(db.Abs()).vlans|)
  {
    var vlanCount := db.count;
    while vlanCount > 0
      invariant db.Valid() && Inv(db.Abs()) && db.vtype == VtDot1q && db.repr == old(db.repr)
      invariant Cleaned(db.Abs().vlans, vlanCount)
      invariant DefaultsLoop(db.Abs(), vlanCount) == DefaultsLoop(old(db.Abs()), |old(db.Abs()).vlans|)
    {
      vlanCount := vlanCount - 1;
      DefaultVisitCleans(db.Abs(), vlanCount + 1);
      VisitFromLast(db, vlanCount);
    }
  }

  /** One round: the default VLAN gets every port untagged, another one goes. */
  method VisitFromLast(db: VlanDb, index: nat)
    requires db.Valid() && Inv(db.Abs()) && db.vtype == VtDot1q && index < |db.vlans|
    modifies db, db.repr
    ensures db.Valid() && db.repr == old(db.repr)
    ensures db.Abs() == DefaultVisit(old(db.Abs()), old(db.vlans)[index].id)
  {
    assert HwAt(db.Abs(), index);
    var _, id, _, _ := db.GetByIndex(index, ErrNotFound);
    if id == VLAN_DEFAULT {
      var _ := db.QvlanPortSet(id, FULL_UPLIST, EMPTY_UPLIST);
    } else {
      var _ := db.Destroy(id);
    }
  }
}
