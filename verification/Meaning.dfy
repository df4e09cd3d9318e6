/**
 What every part of a decoded value is, in terms of the declared C structs: for any
 struct bytes whatever, which declared field a number comes from, and which declared
 pointer leads to a string.
 */
module Meaning {
  import opened Bytes
  import opened Errors
  import opened Raw
  import opened Model
  import opened Layouts
  import opened Marshal
  import opened View
  import opened Schemas

  /** The bytes of field number `k` of a struct, as declared. */
  function DeclaredBytes(raw: bytes, ds: seq<Decl>, k: nat): bytes {
    var fs := Scalars(ds);
    if k < |fs| && Offset(fs, k) + fs[k].size <= |raw| then raw[Offset(fs, k)..Offset(fs, k) + fs[k].size] else []
  }

  function Declared(raw: bytes, ds: seq<Decl>, k: nat): nat {
    Le(DeclaredBytes(raw, ds, k))
  }

  lemma DeclaredIs(raw: bytes, ds: seq<Decl>, k: nat, o: nat, t: CType)
    requires FieldAt(ds, k, o, t) && o + t.size <= |raw|
    ensures DeclaredBytes(raw, ds, k) == raw[o..o + t.size]
  {
    hide Scalars, Offset;
  }

  /** Schema entry `i` of a type hangs off field number `k` of its struct, which has type `t`. */
  predicate HangsOff(ty: Ty, i: nat, ds: seq<Decl>, k: nat, t: CType) {
    i < |Fields(ty)| && FieldAt(ds, k, Place(Fields(ty)[i]), t)
  }

  /** Where a schema entry's struct field is; an entry without a field of its own is at the start. */
  function Place(f: Field): nat {
    match f
    case Ptr(off, _) => off
    case Shared(off) => off
    case Sub(off, _) => off
    case Inline(_) => 0
    case Check(off, _, _) => off
  }

  // ------------------------------------------------------------ strings and bytes

  /** A chunk's text is its body without one final NUL; a body without one is taken whole. */
  lemma TextMeaning(kid: Kid)
    ensures TextOf(kid).Some? <==> kid.Child? && kid.tree.Leaf?
    ensures TextOf(kid).Some? ==>
              var body, text := kid.tree.body, TextOf(kid).value;
              if body != [] && body[|body| - 1] == 0 then body == text + [0] else body == text
  {
  }

  /** A byte string is its whole body. */
  lemma BytesMeaning(kid: Kid)
    ensures BytesOf(kid).Some? <==> kid.Child? && kid.tree.Leaf?
    ensures BytesOf(kid).Some? ==> BytesOf(kid).value == kid.tree.body
  {
  }

  /** A missing mandatory string is empty. */
  lemma MissingIsEmpty(o: Option<bytes>)
    ensures o.None? ==> GetOrEmpty(o) == []
    ensures o.Some? ==> GetOrEmpty(o) == o.value
  {
  }

  // -------------------------------------------------------------------- interfaces

  lemma InterfaceMeaning(t: Tree)
    requires Wf(Iface, t)
    ensures t.Node? && |t.kids| == 3
    ensures HangsOff(Iface, 0, InterfaceDecls(), 0, USIZE)
    ensures HangsOff(Iface, 1, InterfaceDecls(), 2, USIZE) && HangsOff(Iface, 2, InterfaceDecls(), 3, USIZE)
    ensures InterfacesOf(t)[0] == Interface(GetOrEmpty(TextOf(t.kids[1])), TextOf(t.kids[2]))
  {
    hide FieldAt, TextOf, Slot;
    InterfaceLayout();
    IfaceSchema();
    KidAt(Iface, t, 1);
  }

  // --------------------------------------------------------------- addresses

  /** An address, from any struct bytes: its size is capped at the field's sixteen. */
  lemma AddressMeaning(raw: bytes)
    requires |raw| == MGMT_SIZE
    ensures var a, size := MgmtAddress(raw), Declared(raw, MgmtDecls(), 4);
            && a.family == Declared(raw, MgmtDecls(), 2)
            && a.interfaceIndex == Declared(raw, MgmtDecls(), 5)
            && |DeclaredBytes(raw, MgmtDecls(), 3)| == 16
            && |a.octets| == (if size <= 16 then size else 16)
            && a.octets <= DeclaredBytes(raw, MgmtDecls(), 3)
  {
    hide FieldAt, Le, DeclaredBytes;
    MgmtLayout();
    DeclaredIs(raw, MgmtDecls(), 2, M_FAMILY, I32);
    DeclaredIs(raw, MgmtDecls(), 3, M_ADDR, Many(16, U8));
    DeclaredIs(raw, MgmtDecls(), 4, M_ADDRSIZE, USIZE);
    DeclaredIs(raw, MgmtDecls(), 5, M_IFACE, I32);
    var n := |MgmtAddress(raw).octets|;
    assert raw[M_ADDR..M_ADDR + 16][..n] == raw[M_ADDR..M_ADDR + n];
  }

  // ------------------------------------------------------------------ chassis

  /** A chassis, from any struct bytes and what hangs off them. */
  lemma ChassisMeaning(raw: bytes, id: Option<bytes>, name: Option<bytes>, description: Option<bytes>,
                       addresses: seq<ManagementAddress>, med: MedInventory)
    requires |raw| == CHASSIS_SIZE
    ensures ChassisFrom(raw, id, name, description, addresses, med)
         == Chassis(raw[C_ID_SUBTYPE], GetOrEmpty(id), name, description, Declared(raw, ChassisDecls(), 10),
                    Declared(raw, ChassisDecls(), 11), addresses, med)
    ensures raw[C_ID_SUBTYPE] == Declared(raw, ChassisDecls(), 5)
  {
    hide FieldAt, Le, DeclaredBytes, ChassisDecls;
    ChassisLayout0();
    DeclaredIs(raw, ChassisDecls(), 5, C_ID_SUBTYPE, U8);
    DeclaredIs(raw, ChassisDecls(), 10, C_CAP_AVAILABLE, U16);
    DeclaredIs(raw, ChassisDecls(), 11, C_CAP_ENABLED, U16);
    OneByte(raw[C_ID_SUBTYPE..C_ID_SUBTYPE + 1]);
  }

  lemma OneByte(s: bytes)
    requires |s| == 1
    ensures Le(s) == s[0]
  {
    assert s[1..] == [];
  }

  /** Which declared pointer each string of a chassis, and its address list, hangs off. */
  lemma ChassisStringsMeaning(t: Tree)
    requires Wf(ChassisBox, t)
    ensures t.Node? && |t.kids| == 11 && (t.kids[3].Child? ==> Wf(Mgmt, t.kids[3].tree))
    ensures var c := ChassisOf(t);
            && c.id == GetOrEmpty(BytesOf(t.kids[0])) && c.name == TextOf(t.kids[1]) && c.description == TextOf(t.kids[2])
            && c.managementAddresses == (if t.kids[3].Child? then MgmtOf(t.kids[3].tree) else [])
            && c.med.hardwareRevision == TextOf(t.kids[4]) && c.med.firmwareRevision == TextOf(t.kids[5])
            && c.med.softwareRevision == TextOf(t.kids[6]) && c.med.serialNumber == TextOf(t.kids[7])
            && c.med.manufacturer == TextOf(t.kids[8]) && c.med.model == TextOf(t.kids[9])
            && c.med.assetId == TextOf(t.kids[10])
    ensures HangsOff(ChassisBox, 0, ChassisDecls(), 6, USIZE)
    ensures HangsOff(ChassisBox, 1, ChassisDecls(), 8, USIZE)
    ensures HangsOff(ChassisBox, 2, ChassisDecls(), 9, USIZE)
    ensures HangsOff(ChassisBox, 3, ChassisDecls(), 12, USIZE)
    ensures HangsOff(ChassisBox, 4, ChassisDecls(), 16, USIZE)
    ensures HangsOff(ChassisBox, 5, ChassisDecls(), 17, USIZE)
    ensures HangsOff(ChassisBox, 6, ChassisDecls(), 18, USIZE)
    ensures HangsOff(ChassisBox, 7, ChassisDecls(), 19, USIZE)
    ensures HangsOff(ChassisBox, 8, ChassisDecls(), 20, USIZE)
    ensures HangsOff(ChassisBox, 9, ChassisDecls(), 21, USIZE)
    ensures HangsOff(ChassisBox, 10, ChassisDecls(), 22, USIZE)
  {
    hide FieldAt, Le, TextOf, BytesOf, MgmtOf, Slot, Fields, ChassisDecls;
    ChassisLayout0();
    ChassisLayout1();
    ChassisSchema();
    KidAt(ChassisBox, t, 3);
  }

  // -------------------------------------------------------------------- ports

  /** A neighbor, from any struct bytes: no other field of the port leaks into its numbers. */
  lemma NeighborMeaning(raw: bytes, kids: seq<Kid>)
    requires |raw| == PORT_SIZE && KidsWf(PortBody, raw, kids) && Slot(raw, P_CHASSIS) != 0
    ensures |kids| == 10
    ensures var n := NeighborView(raw, kids);
            && n.ttl == Declared(raw, PortDecls(), 16) < U16_LIMIT
            && n.portIdSubtype == Declared(raw, PortDecls(), 10)
            && n.chassis.id == Declared(raw, PortDecls(), 2)
            && n.portId == GetOrEmpty(BytesOf(kids[1])) && n.portDescription == TextOf(kids[2])
            && kids[0].Child? && Wf(ChassisBox, kids[0].tree) && n.chassis.chassis == ChassisOf(kids[0].tree)
    ensures HangsOff(PortBody, 0, PortDecls(), 2, USIZE)
    ensures HangsOff(PortBody, 1, PortDecls(), 11, USIZE)
    ensures HangsOff(PortBody, 2, PortDecls(), 13, USIZE)
  {
    hide FieldAt, Le, DeclaredBytes, TextOf, BytesOf, ChassisOf, Wf, Fields, PortDecls;
    PortLayout0();
    PortBodySchema();
    Widths();
    assert KidWf(PortBody, Fields(PortBody)[0], raw, kids[0]);
    DeclaredIs(raw, PortDecls(), 2, P_CHASSIS, USIZE);
    DeclaredIs(raw, PortDecls(), 10, P_ID_SUBTYPE, U8);
    DeclaredIs(raw, PortDecls(), 16, P_TTL, U16);
    OneByte(raw[P_ID_SUBTYPE..P_ID_SUBTYPE + 1]);
    ToLeOfLe(raw[P_TTL..P_TTL + 2]);
  }

  // ------------------------------------------------------------------ hardware

  /** Field numbers of the name, the alias pointer, the address, the local port and the chain. */
  function NameField(l: Layout): nat {
    if l.Legacy? then 13 else 14
  }

  function HardwareStruct(l: Layout): seq<Decl> {
    if l.Legacy? then HardwareDecls() else FpHardwareDecls()
  }

  /** A record, from any struct bytes, in either layout. */
  lemma HardwareMeaning(l: Layout, t: Tree)
    requires Wf(Hardware(l), t)
    ensures t.Node? && |t.kids| == 3 && (t.kids[1].Child? ==> Wf(NeighborPort, t.kids[1].tree))
    ensures var d, ds, k := HardwareOf(l, t), HardwareStruct(l), NameField(l);
            && |DeclaredBytes(t.raw, ds, k)| == 16 && d.name == UntilNul(DeclaredBytes(t.raw, ds, k))
            && d.alias == TextOf(t.kids[2])
            && d.macAddress == DeclaredBytes(t.raw, ds, k + 2) && |d.macAddress| == 6
            && d.neighbors == (if t.kids[1].Child? then NeighborsOf(t.kids[1].tree) else [])
            && HangsOff(Hardware(l), 2, ds, k + 1, USIZE)
            && HangsOff(Hardware(l), 0, ds, k + 20, PORT_T)
            && HangsOff(Hardware(l), 1, ds, k + 21, USIZE)
  {
    hide FieldAt, DeclaredBytes, TextOf, NeighborsOf, UntilNul, LocalFieldsOf, Fields, Slot, Inner;
    HardwareSchema(l);
    HardwareShape(l, t);
    var ds := HardwareStruct(l);
    if l.Legacy? {
      HardwareLayout0();
      HardwareLayout1();
    } else {
      FpHardwareLayout0();
      FpHardwareLayout1();
    }
    DeclaredIs(t.raw, ds, NameField(l), NameOffset(l), Many(16, U8));
    DeclaredIs(t.raw, ds, NameField(l) + 2, MacOffset(l), Many(6, U8));
  }

  /** The local chassis: that of the embedded port, under its raw pointer value. */
  lemma LocalMeaning(l: Layout, t: Tree)
    requires Wf(Hardware(l), t)
    ensures t.Node? && |t.kids| == 3 && t.kids[0].Marked? && |t.kids[0].kids| == 2 && t.kids[0].kids[1].Group?
    ensures var port := Inner(t.raw, LocalPortOffset(l), LocalPort);
            var body := t.kids[0].kids[1].kids;
            var c := HardwareOf(l, t).localChassis;
            && |body| == 10
            && (c.Some? <==> Declared(port, PortDecls(), 2) != 0)
            && (c.Some? ==>
                  && c.value.id == Declared(port, PortDecls(), 2)
                  && body[0].Child? && Wf(ChassisBox, body[0].tree) && c.value.chassis == ChassisOf(body[0].tree))
  {
    hide FieldAt, DeclaredBytes, TextOf, BytesOf, NeighborsOf, UntilNul, Fields, ChassisOf, Inner, Wf;
    HardwareShape(l, t);
    PortLayout0();
    PortBodySchema();
    var port := Inner(t.raw, LocalPortOffset(l), LocalPort);
    var body := t.kids[0].kids[1].kids;
    assert KidWf(PortBody, Fields(PortBody)[0], port, body[0]);
    DeclaredIs(port, PortDecls(), 2, P_CHASSIS, USIZE);
  }

  // ------------------------------------------------------------- notifications

  /** The state is a signed number with three named values. */
  lemma KindMeaning(state: nat)
    requires state < U32_LIMIT
    ensures KindOf(Signed32(state)) ==
              if state == 1 then Added
              else if state == 0 then Updated
              else if state == 0xFFFF_FFFF then Deleted
              else if state < 0x8000_0000 then Other(state)
              else Other(state - U32_LIMIT)
  {
  }

  /** A change, from any struct bytes. */
  lemma ChangeMeaning(t: Tree)
    requires Wf(ChangeNotice, t)
    ensures t.Node? && |t.kids| == 3 && (t.kids[2].Child? ==> Wf(NotifiedPort, t.kids[2].tree))
    ensures var c := ChangeOf(t);
            && c.interface == GetOrEmpty(TextOf(t.kids[0])) && c.interfaceAlias == TextOf(t.kids[1])
            && Declared(t.raw, ChangeDecls(), 2) < U32_LIMIT
            && c.kind == KindOf(Signed32(Declared(t.raw, ChangeDecls(), 2)))
            && c.neighbor == (if t.kids[2].Child? then Some(NeighborOf(NotifiedPort, t.kids[2].tree)) else None)
    ensures HangsOff(ChangeNotice, 0, ChangeDecls(), 0, USIZE)
    ensures HangsOff(ChangeNotice, 1, ChangeDecls(), 1, USIZE)
    ensures HangsOff(ChangeNotice, 2, ChangeDecls(), 3, USIZE)
  {
    hide FieldAt, DeclaredBytes, TextOf, NeighborOf, Le, KindOf, Slot, Fields, ChangeDecls;
    ChangeLayout0();
    ChangeLayout();
    ChangeSchema();
    Widths();
    KidAt(ChangeNotice, t, 2);
    DeclaredIs(t.raw, ChangeDecls(), 2, N_STATE, I32);
    ToLeOfLe(t.raw[N_STATE..N_STATE + 4]);
  }

  // ------------------------------------------------------------------ wire order

  /**
   What follows a struct follows in the order in which its fields are declared,
   except that the hardware struct's alias, declared first, comes last.
   */
  lemma WireOrder(ty: Ty, i: nat, j: nat)
    requires i < j < |Fields(ty)|
    requires !ty.LocalPort? && !ty.NeighborPort? && !ty.NotifiedPort?
    ensures if ty.Hardware? && j == 2 then Place(Fields(ty)[j]) < Place(Fields(ty)[i])
            else Place(Fields(ty)[i]) < Place(Fields(ty)[j])
  {
  }
}
