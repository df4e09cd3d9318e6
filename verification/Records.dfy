/**
 Every record has a message. For any chassis, addresses, ports, optional strings
 and unsurfaced data that fit their C fields, a tree is built whose message
 decodes to the record itself.
 */
module Records {
  import opened Bytes
  import opened Errors
  import opened Raw
  import opened Model
  import opened Marshal
  import opened Emitter
  import opened Sharing
  import opened View
  import opened Schemas
  import opened Uses
  import opened Patches
  import opened Layouts
  import opened Payload
  import opened Encode
  import opened Lists

  /** A fixed-length byte string as a chunk. */
  function BlobKid(o: Option<bytes>): Kid {
    match o
    case None => Absent
    case Some(b) => Child(Leaf(1, b))
  }

  // ------------------------------------------------------ management addresses

  predicate AddressFits(a: ManagementAddress) {
    a.family < U32_LIMIT && |a.octets| <= M_MAXADDR && a.interfaceIndex < U32_LIMIT
  }

  predicate AddressesFit(xs: seq<ManagementAddress>) {
    forall i | 0 <= i < |xs| :: AddressFits(xs[i])
  }

  function MgmtPatches(next: Kid, a: ManagementAddress): (ps: seq<Patch>)
    requires AddressFits(a)
    ensures |ps| == 5 && Ordered(ps, MGMT_SIZE)
  {
    hide ToLe;
    [Patch(TQE_NEXT, Word(Mark(next))), Patch(M_FAMILY, ToLe(a.family, 4)), Patch(M_ADDR, a.octets),
     Patch(M_ADDRSIZE, Word(|a.octets|)), Patch(M_IFACE, ToLe(a.interfaceIndex, 4))]
  }

  function MgmtNode(a: ManagementAddress, next: Kid): Tree
    requires AddressFits(a)
  {
    Node(1, Filled(MgmtPatches(next, a), MGMT_SIZE), [next])
  }

  lemma MgmtNodeSays(a: ManagementAddress, next: Kid)
    requires AddressFits(a)
    requires next.Absent? || (next.Child? && Wf(Mgmt, next.tree))
    ensures Wf(Mgmt, MgmtNode(a, next)) && MgmtAddress(MgmtNode(a, next).raw) == a
  {
    hide Slot, Le, Filled, Ordered, ToLe;
    assert Fields(Mgmt) == [Ptr(TQE_NEXT, Mgmt)];
    var ps, raw := MgmtPatches(next, a), MgmtNode(a, next).raw;
    Widths();
    FilledSlot(ps, MGMT_SIZE, 0, Mark(next));
    FilledNumber(ps, MGMT_SIZE, 1, a.family, 4);
    FilledHolds(ps, MGMT_SIZE, 2);
    FilledSlot(ps, MGMT_SIZE, 3, |a.octets|);
    FilledNumber(ps, MGMT_SIZE, 4, a.interfaceIndex, 4);
    PtrKid(Mgmt, TQE_NEXT, Mgmt, raw, next);
    assert KidsWf(Mgmt, raw, [next]);
  }

  function MgmtKid(xs: seq<ManagementAddress>): Kid
    requires AddressesFit(xs)
  {
    if xs == [] then Absent else Child(MgmtNode(xs[0], MgmtKid(xs[1..])))
  }

  lemma {:induction false} MgmtKidSays(xs: seq<ManagementAddress>)
    requires AddressesFit(xs)
    ensures xs == [] <==> MgmtKid(xs).Absent?
    ensures xs != [] ==> MgmtKid(xs).Child? && Wf(Mgmt, MgmtKid(xs).tree) && MgmtOf(MgmtKid(xs).tree) == xs
  {
    hide Wf, MgmtPatches, Filled, MgmtAddress, AddressFits;
    if xs != [] {
      MgmtKidSays(xs[1..]);
      MgmtNodeSays(xs[0], MgmtKid(xs[1..]));
      assert [xs[0]] + xs[1..] == xs;
    }
  }

  // ------------------------------------------------------------------- chassis

  predicate ChassisFits(c: Chassis) {
    && c.capabilitiesAvailable < U16_LIMIT && c.capabilitiesEnabled < U16_LIMIT
    && AddressesFit(c.managementAddresses)
  }

  function ChassisKids(c: Chassis): (kids: seq<Kid>)
    requires ChassisFits(c)
    ensures |kids| == 11
  {
    [Child(Leaf(1, c.id)), TextKid(c.name), TextKid(c.description), MgmtKid(c.managementAddresses),
     TextKid(c.med.hardwareRevision), TextKid(c.med.firmwareRevision), TextKid(c.med.softwareRevision),
     TextKid(c.med.serialNumber), TextKid(c.med.manufacturer), TextKid(c.med.model), TextKid(c.med.assetId)]
  }

  function ChassisPatches(c: Chassis, k: seq<Kid>): (ps: seq<Patch>)
    requires |k| == 11
    ensures |ps| == 14 && Ordered(ps, CHASSIS_SIZE)
  {
    hide ToLe;
    [Patch(C_ID_SUBTYPE, [c.idSubtype]), Patch(C_ID, Word(Mark(k[0]))), Patch(C_NAME, Word(Mark(k[1]))),
     Patch(C_DESCR, Word(Mark(k[2]))), Patch(C_CAP_AVAILABLE, ToLe(c.capabilitiesAvailable, 2)),
     Patch(C_CAP_ENABLED, ToLe(c.capabilitiesEnabled, 2)), Patch(C_MGMT_FIRST, Word(Mark(k[3]))),
     Patch(C_MED_HW, Word(Mark(k[4]))), Patch(C_MED_FW, Word(Mark(k[5]))), Patch(C_MED_SW, Word(Mark(k[6]))),
     Patch(C_MED_SN, Word(Mark(k[7]))), Patch(C_MED_MANUF, Word(Mark(k[8]))), Patch(C_MED_MODEL, Word(Mark(k[9]))),
     Patch(C_MED_ASSET, Word(Mark(k[10])))]
  }

  function ChassisNode(id: nat, c: Chassis): Tree
    requires ChassisFits(c)
  {
    Node(id, Filled(ChassisPatches(c, ChassisKids(c)), CHASSIS_SIZE), ChassisKids(c))
  }

  /** The patch that holds pointer field `j` of a chassis. */
  function ChassisPatch(j: nat): nat {
    if j < 3 then j + 1 else j + 3
  }

  lemma ChassisTargets()
    ensures |Fields(ChassisBox)| == 11
    ensures forall j | 0 <= j < 11 :: Fields(ChassisBox)[j].Ptr?
    ensures forall j | 0 <= j < 11 :: Fields(ChassisBox)[j].target == if j == 0 then Blob else if j == 3 then Mgmt else CString
  {
  }

  lemma ChassisPatchIs(c: Chassis, k: seq<Kid>, j: nat)
    requires |k| == 11 && j < 11
    ensures ChassisPatch(j) < 14
    ensures ChassisPatches(c, k)[ChassisPatch(j)] == Patch(Fields(ChassisBox)[j].off, Word(Mark(k[j])))
  {
    hide ToLe, Ordered;
  }

  lemma ChassisKidOk(c: Chassis, j: nat)
    requires ChassisFits(c) && j < 11
    ensures var kid, t := ChassisKids(c)[j], Fields(ChassisBox)[j].target;
            kid.Absent? || (kid.Child? && Wf(t, kid.tree))
  {
    hide MgmtKid, AddressesFit;
    ChassisTargets();
    MgmtKidSays(c.managementAddresses);
  }

  lemma ChassisNodeWf(id: nat, c: Chassis)
    requires ChassisFits(c) && id < WORD_LIMIT
    ensures Wf(ChassisBox, ChassisNode(id, c))
  {
    hide Slot, Filled, Ordered, ToLe, ChassisFits, ChassisKids, Fields, ChassisPatches;
    ChassisTargets();
    var t, k := ChassisNode(id, c), ChassisKids(c);
    forall j | 0 <= j < 11 ensures KidWf(ChassisBox, Fields(ChassisBox)[j], t.raw, k[j]) {
      ChassisPatchIs(c, k, j);
      FilledSlot(ChassisPatches(c, k), CHASSIS_SIZE, ChassisPatch(j), Mark(k[j]));
      ChassisKidOk(c, j);
      PtrKid(ChassisBox, Fields(ChassisBox)[j].off, Fields(ChassisBox)[j].target, t.raw, k[j]);
    }
    assert KidsWf(ChassisBox, t.raw, k);
  }

  lemma ChassisNumbers(id: nat, c: Chassis)
    requires ChassisFits(c) && id < WORD_LIMIT
    ensures var raw := ChassisNode(id, c).raw;
            && raw[C_ID_SUBTYPE] == c.idSubtype
            && Le(raw[C_CAP_AVAILABLE..C_CAP_AVAILABLE + 2]) == c.capabilitiesAvailable
            && Le(raw[C_CAP_ENABLED..C_CAP_ENABLED + 2]) == c.capabilitiesEnabled
  {
    hide Filled, Ordered, ToLe, Le, ChassisKids, AddressesFit;
    var ps := ChassisPatches(c, ChassisKids(c));
    Widths();
    FilledHolds(ps, CHASSIS_SIZE, 0);
    assert Filled(ps, CHASSIS_SIZE)[C_ID_SUBTYPE..C_ID_SUBTYPE + 1][0] == c.idSubtype;
    FilledNumber(ps, CHASSIS_SIZE, 4, c.capabilitiesAvailable, 2);
    FilledNumber(ps, CHASSIS_SIZE, 5, c.capabilitiesEnabled, 2);
  }

  lemma MedSays(c: Chassis)
    requires ChassisFits(c)
    ensures MedOf(ChassisKids(c)) == c.med
  {
    hide TextOf, TextKid, MgmtKid, AddressesFit;
    TextKidSays(c.med.hardwareRevision);
    TextKidSays(c.med.firmwareRevision);
    TextKidSays(c.med.softwareRevision);
    TextKidSays(c.med.serialNumber);
    TextKidSays(c.med.manufacturer);
    TextKidSays(c.med.model);
    TextKidSays(c.med.assetId);
  }

  lemma ChassisNodeSays(id: nat, c: Chassis)
    requires ChassisFits(c) && id < WORD_LIMIT
    ensures Wf(ChassisBox, ChassisNode(id, c)) && ChassisOf(ChassisNode(id, c)) == c
  {
    hide Wf, ChassisPatches, Filled, MedOf, Le, TextOf, TextKid, MgmtKid, MgmtOf, AddressesFit;
    ChassisNodeWf(id, c);
    ChassisNumbers(id, c);
    MedSays(c);
    TextKidSays(c.name);
    TextKidSays(c.description);
    MgmtKidSays(c.managementAddresses);
    var k := ChassisKids(c);
    assert GetOrEmpty(BytesOf(k[0])) == c.id;
    assert ChassisOf(ChassisNode(id, c)).managementAddresses == c.managementAddresses;
  }

  // --------------------------------------------------------------------- ports

  /** What the wire carries for a port and the crate does not surface. */
  datatype Extras = Extras(pattern: Kid, locations: seq<Kid>, vlans: Kid, ppvids: Kid, pis: Kid)

  predicate KidOf(t: Ty, kid: Kid) {
    kid.Absent? || (kid.Child? && Wf(t, kid.tree))
  }

  predicate ExtrasFit(x: Extras) {
    && KidOf(CString, x.pattern)
    && |x.locations| == 3 && KidOf(Blob, x.locations[0]) && KidOf(Blob, x.locations[1]) && KidOf(Blob, x.locations[2])
    && KidOf(Vlan, x.vlans) && KidOf(Ppvid, x.ppvids) && KidOf(Pi, x.pis)
  }

  /** A port on the sender's side. */
  datatype SourcePort = SourcePort(
    chassis: Option<ChassisUse>, idSubtype: byte, id: Option<bytes>, description: Option<bytes>, ttl: nat, extras: Extras)

  predicate UseFits(u: ChassisUse) {
    0 < u.id < WORD_LIMIT && ChassisFits(u.chassis)
  }

  predicate PortFits(p: SourcePort) {
    (p.chassis.Some? ==> UseFits(p.chassis.value)) && p.ttl < U16_LIMIT && ExtrasFit(p.extras)
  }

  function ChassisId(p: SourcePort): nat {
    if p.chassis.Some? then p.chassis.value.id else 0
  }

  function PortKids(p: SourcePort): (kids: seq<Kid>)
    requires PortFits(p)
    ensures |kids| == 10
  {
    [if p.chassis.Some? then Child(ChassisNode(p.chassis.value.id, p.chassis.value.chassis)) else Absent,
     BlobKid(p.id), TextKid(p.description), p.extras.pattern,
     Marked(1, [p.extras.locations[0]]), Marked(1, [p.extras.locations[1]]), Marked(1, [p.extras.locations[2]]),
     p.extras.vlans, p.extras.ppvids, p.extras.pis]
  }

  function PortPatches(p: SourcePort, next: Kid): (ps: seq<Patch>)
    requires PortFits(p)
    ensures |ps| == 13 && Ordered(ps, PORT_SIZE)
  {
    hide ToLe, KidOf, UseFits, TextKid, BlobKid, ChassisId, Mark;
    var x := p.extras;
    [Patch(TQE_NEXT, Word(Mark(next))), Patch(P_CHASSIS, Word(ChassisId(p))), Patch(P_ID_SUBTYPE, [p.idSubtype]),
     Patch(P_ID, Word(Mark(BlobKid(p.id)))), Patch(P_DESCR, Word(Mark(TextKid(p.description)))), Patch(P_TTL, ToLe(p.ttl, 2)),
     Patch(P_VLAN_PATTERN, Word(Mark(x.pattern))),
     Patch(P_MED_LOCATION_0 + LOC_DATA, Word(Mark(x.locations[0]))), Patch(P_MED_LOCATION_1 + LOC_DATA, Word(Mark(x.locations[1]))),
     Patch(P_MED_LOCATION_2 + LOC_DATA, Word(Mark(x.locations[2]))),
     Patch(P_VLANS_FIRST, Word(Mark(x.vlans))), Patch(P_PPVIDS_FIRST, Word(Mark(x.ppvids))), Patch(P_PIDS_FIRST, Word(Mark(x.pis)))]
  }

  function PortRaw(p: SourcePort, next: Kid): (raw: bytes)
    requires PortFits(p)
    ensures |raw| == PORT_SIZE
  {
    Filled(PortPatches(p, next), PORT_SIZE)
  }

  lemma PortSlots(p: SourcePort, next: Kid)
    requires PortFits(p)
    ensures var raw, x := PortRaw(p, next), p.extras;
            && Slot(raw, TQE_NEXT) == Mark(next)
            && Slot(raw, P_CHASSIS) == ChassisId(p)
            && Slot(raw, P_ID) == Mark(BlobKid(p.id))
            && Slot(raw, P_DESCR) == Mark(TextKid(p.description))
            && Slot(raw, P_VLAN_PATTERN) == Mark(x.pattern)
            && Slot(raw, P_VLANS_FIRST) == Mark(x.vlans)
            && Slot(raw, P_PPVIDS_FIRST) == Mark(x.ppvids)
            && Slot(raw, P_PIDS_FIRST) == Mark(x.pis)
  {
    hide Slot, Filled, Ordered, ToLe, ChassisFits, KidOf;
    var ps := PortPatches(p, next);
    FilledSlot(ps, PORT_SIZE, 0, Mark(next));
    FilledSlot(ps, PORT_SIZE, 1, ChassisId(p));
    FilledSlot(ps, PORT_SIZE, 3, Mark(BlobKid(p.id)));
    FilledSlot(ps, PORT_SIZE, 4, Mark(TextKid(p.description)));
    FilledSlot(ps, PORT_SIZE, 6, Mark(p.extras.pattern));
    FilledSlot(ps, PORT_SIZE, 10, Mark(p.extras.vlans));
    FilledSlot(ps, PORT_SIZE, 11, Mark(p.extras.ppvids));
    FilledSlot(ps, PORT_SIZE, 12, Mark(p.extras.pis));
  }

  lemma PortNumbers(p: SourcePort, next: Kid)
    requires PortFits(p)
    ensures PortRaw(p, next)[P_ID_SUBTYPE] == p.idSubtype
    ensures Le(PortRaw(p, next)[P_TTL..P_TTL + 2]) == p.ttl
  {
    hide Filled, Ordered, ToLe, Le, ChassisFits, KidOf;
    var ps := PortPatches(p, next);
    Widths();
    FilledHolds(ps, PORT_SIZE, 2);
    assert Filled(ps, PORT_SIZE)[P_ID_SUBTYPE..P_ID_SUBTYPE + 1][0] == p.idSubtype;
    FilledNumber(ps, PORT_SIZE, 5, p.ttl, 2);
  }

  /** Location `i`, read inside its embedded struct. */
  lemma LocationKid(p: SourcePort, next: Kid, i: nat)
    requires PortFits(p) && i < 3
    ensures KidWf(PortBody, Sub(P_MED_LOCATION_0 + MED_LOC_SIZE * i, MedLoc), PortRaw(p, next), Marked(1, [p.extras.locations[i]]))
  {
    hide Slot, Filled, Ordered, ToLe, ChassisFits, Wf;
    var off, raw, kid := P_MED_LOCATION_0 + MED_LOC_SIZE * i, PortRaw(p, next), p.extras.locations[i];
    var loc := Inner(raw, off, MedLoc);
    FilledSlot(PortPatches(p, next), PORT_SIZE, 7 + i, Mark(kid));
    SlotInside(raw, off, off + MED_LOC_SIZE, LOC_DATA);
    assert KidOf(Blob, kid);
    PtrKid(MedLoc, LOC_DATA, Blob, loc, kid);
    assert Fields(MedLoc) == [Ptr(LOC_DATA, Blob)];
    assert KidsWf(MedLoc, loc, [kid]);
  }

  lemma PortPtrKids(p: SourcePort, next: Kid)
    requires PortFits(p)
    ensures var raw, k := PortRaw(p, next), PortKids(p);
            && KidWf(PortBody, Ptr(P_ID, Blob), raw, k[1]) && KidWf(PortBody, Ptr(P_DESCR, CString), raw, k[2])
            && KidWf(PortBody, Ptr(P_VLAN_PATTERN, CString), raw, k[3]) && KidWf(PortBody, Ptr(P_VLANS_FIRST, Vlan), raw, k[7])
            && KidWf(PortBody, Ptr(P_PPVIDS_FIRST, Ppvid), raw, k[8]) && KidWf(PortBody, Ptr(P_PIDS_FIRST, Pi), raw, k[9])
  {
    hide Slot, PortRaw, ChassisFits, Wf, KidWf, ChassisNode, TextKid;
    var raw, k, x := PortRaw(p, next), PortKids(p), p.extras;
    PortSlots(p, next);
    TextKidSays(p.description);
    BlobKidWf(p.id);
    assert KidOf(CString, x.pattern) && KidOf(Vlan, x.vlans) && KidOf(Ppvid, x.ppvids) && KidOf(Pi, x.pis);
    TextKidShape(p.description);
    PtrKid(PortBody, P_ID, Blob, raw, k[1]);
    PtrKid(PortBody, P_DESCR, CString, raw, k[2]);
    PtrKid(PortBody, P_VLAN_PATTERN, CString, raw, k[3]);
    PtrKid(PortBody, P_VLANS_FIRST, Vlan, raw, k[7]);
    PtrKid(PortBody, P_PPVIDS_FIRST, Ppvid, raw, k[8]);
    PtrKid(PortBody, P_PIDS_FIRST, Pi, raw, k[9]);
  }

  lemma TextKidShape(o: Option<bytes>)
    ensures if o.None? then TextKid(o).Absent? else TextKid(o).Child?
  {
  }

  lemma BlobKidWf(o: Option<bytes>)
    ensures KidOf(Blob, BlobKid(o)) && BytesOf(BlobKid(o)) == o
  {
  }

  lemma PortChassisKid(p: SourcePort, next: Kid)
    requires PortFits(p)
    ensures KidWf(PortBody, Shared(P_CHASSIS), PortRaw(p, next), PortKids(p)[0])
    ensures p.chassis.Some? ==> ChassisOf(PortKids(p)[0].tree) == p.chassis.value.chassis
  {
    hide Slot, PortRaw, ChassisFits, Wf, ChassisNode, ChassisOf;
    PortSlots(p, next);
    if p.chassis.Some? { ChassisNodeSays(p.chassis.value.id, p.chassis.value.chassis); }
  }

  lemma PortKidsWf(p: SourcePort, next: Kid)
    requires PortFits(p)
    ensures KidsWf(PortBody, PortRaw(p, next), PortKids(p))
  {
    hide KidWf, PortRaw, Fields, ExtrasFit, UseFits;
    PortBodySchema();
    PortPtrKids(p, next);
    PortChassisKid(p, next);
    var raw, k := PortRaw(p, next), PortKids(p);
    LocationKid(p, next, 0);
    LocationKid(p, next, 1);
    LocationKid(p, next, 2);
    assert KidWf(PortBody, Fields(PortBody)[4 + 0], raw, k[4]);
    assert KidWf(PortBody, Fields(PortBody)[4 + 1], raw, k[5]);
    assert KidWf(PortBody, Fields(PortBody)[4 + 2], raw, k[6]);
  }

  lemma PortSays(p: SourcePort, next: Kid)
    requires PortFits(p)
    ensures KidsWf(PortBody, PortRaw(p, next), PortKids(p))
    ensures PortFieldsOf(PortRaw(p, next), PortKids(p)) == PortFields(p.chassis, p.id, p.description)
  {
    hide Slot, PortRaw, KidsWf, KidWf, ChassisOf, ChassisNode, ExtrasFit, UseFits, BytesOf, TextOf, TextKid;
    PortKidsWf(p, next);
    PortChassisKid(p, next);
    PortSlots(p, next);
    BlobKidWf(p.id);
    TextKidSays(p.description);
  }

  /** The uses in a port agree with a table that gives each id its tree. */
  predicate Tabled(u: ChassisUse, table: Cache) {
    ChassisFits(u.chassis) && u.id in table && table[u.id] == ChassisNode(u.id, u.chassis)
  }

  lemma PortAgrees(p: SourcePort, next: Kid, table: Cache)
    requires PortFits(p) && KidsWf(PortBody, PortRaw(p, next), PortKids(p))
    requires p.chassis.Some? ==> Tabled(p.chassis.value, table)
    ensures KidsAgree(PortBody, PortRaw(p, next), PortKids(p), table)
  {
    hide KidAgrees, Fields, FieldClosed, ExtrasFit, UseFits, KidWf, Tabled, PortRaw, PortKids;
    PortBodyClosed();
    var raw, k := PortRaw(p, next), PortKids(p);
    PortChassisAgrees(p, next, table);
    forall i | 0 <= i < 10 ensures KidAgrees(PortBody, Fields(PortBody)[i], raw, k[i], table) {
      if i > 0 { ClosedKidAgrees(PortBody, Fields(PortBody)[i], raw, k[i], table); }
    }
  }

  lemma PortChassisAgrees(p: SourcePort, next: Kid, table: Cache)
    requires PortFits(p) && KidWf(PortBody, Shared(P_CHASSIS), PortRaw(p, next), PortKids(p)[0])
    requires p.chassis.Some? ==> Tabled(p.chassis.value, table)
    ensures KidAgrees(PortBody, Shared(P_CHASSIS), PortRaw(p, next), PortKids(p)[0], table)
  {
    hide Slot, PortRaw, ChassisFits, Wf, ChassisNode, Agrees, ExtrasFit;
    PortSlots(p, next);
    if p.chassis.Some? { ClosedAgrees(ChassisBox, PortKids(p)[0].tree, table); }
  }

  // ----------------------------------------------------------------- neighbors

  /** A neighbor as the sender's port. */
  function NeighborPortOf(n: Neighbor<ChassisUse>, x: Extras): SourcePort {
    SourcePort(Some(n.chassis), n.portIdSubtype, Some(n.portId), n.portDescription, n.ttl, x)
  }

  predicate NeighborFits(n: Neighbor<ChassisUse>, x: Extras) {
    UseFits(n.chassis) && n.ttl < U16_LIMIT && ExtrasFit(x)
  }

  predicate NeighborsFit(ns: seq<Neighbor<ChassisUse>>, xs: seq<Extras>) {
    |xs| == |ns| && forall i | 0 <= i < |ns| :: NeighborFits(ns[i], xs[i])
  }

  function PortNode(p: SourcePort, next: Kid): Tree
    requires PortFits(p)
  {
    Node(1, PortRaw(p, next), [next, Group(PortKids(p)), Absent])
  }

  lemma PortNodeSays(ty: Ty, n: Neighbor<ChassisUse>, x: Extras, next: Kid, table: Cache)
    requires ty.NeighborPort? || (ty.NotifiedPort? && next.Absent?)
    requires NeighborFits(n, x) && Tabled(n.chassis, table)
    requires ty.NeighborPort? && next.Child? ==> Wf(NeighborPort, next.tree) && Agrees(NeighborPort, next.tree, table)
    requires next.Child? || next.Absent?
    ensures var t := PortNode(NeighborPortOf(n, x), next);
            Wf(ty, t) && Agrees(ty, t, table) && NeighborOf(ty, t) == n
  {
    hide Slot, PortRaw, PortKids, UseFits, ExtrasFit, Tabled, Fields, PortFieldsOf, Le;
    var p := NeighborPortOf(n, x);
    var t := PortNode(p, next);
    PortSays(p, next);
    PortSlots(p, next);
    PortNumbers(p, next);
    PortAgrees(p, next, table);
    NonZeroId(n.chassis);
    NeighborNodeWf(ty, t.raw, next, t.kids[1].kids, table);
  }

  lemma NonZeroId(u: ChassisUse)
    requires UseFits(u)
    ensures u.id != 0
  {
  }

  /** A port struct around a body. */
  lemma NeighborNodeWf(ty: Ty, raw: bytes, next: Kid, kids: seq<Kid>, table: Cache)
    requires ty.NeighborPort? || (ty.NotifiedPort? && next.Absent?)
    requires |raw| == PORT_SIZE && KidsWf(PortBody, raw, kids) && KidsAgree(PortBody, raw, kids, table)
    requires Slot(raw, P_CHASSIS) != 0 && Slot(raw, TQE_NEXT) == Mark(next)
    requires ty.NeighborPort? && next.Child? ==> Wf(NeighborPort, next.tree) && Agrees(NeighborPort, next.tree, table)
    requires next.Child? || next.Absent?
    ensures var t := Node(1, raw, [next, Group(kids), Absent]);
            && Wf(ty, t) && Agrees(ty, t, table)
            && NeighborOf(ty, t) == NeighborView(raw, kids)
  {
    hide Slot, Fields, NeighborView;
    var t := Node(1, raw, [next, Group(kids), Absent]);
    PortSchema();
    assert KidWf(ty, Fields(ty)[0], raw, next);
    assert KidWf(ty, Fields(ty)[1], raw, Group(kids));
    assert KidWf(ty, Fields(ty)[2], raw, Absent);
    assert KidsWf(ty, raw, t.kids);
    assert KidAgrees(ty, Fields(ty)[0], raw, next, table);
    assert KidAgrees(ty, Fields(ty)[1], raw, Group(kids), table);
    assert KidsAgree(ty, raw, t.kids, table);
  }

  function NeighborKid(ns: seq<Neighbor<ChassisUse>>, xs: seq<Extras>): Kid
    requires NeighborsFit(ns, xs)
  {
    if ns == [] then Absent else Child(PortNode(NeighborPortOf(ns[0], xs[0]), NeighborKid(ns[1..], xs[1..])))
  }

  lemma {:induction false} NeighborKidSays(ns: seq<Neighbor<ChassisUse>>, xs: seq<Extras>, table: Cache)
    requires NeighborsFit(ns, xs) && forall n | n in ns :: Tabled(n.chassis, table)
    ensures ns == [] <==> NeighborKid(ns, xs).Absent?
    ensures ns != [] ==>
              var kid := NeighborKid(ns, xs);
              && kid.Child? && Wf(NeighborPort, kid.tree) && Agrees(NeighborPort, kid.tree, table)
              && NeighborsOf(kid.tree) == ns
  {
    hide Wf, Agrees, Tabled, UseFits, ExtrasFit, PortRaw, PortKids, NeighborOf;
    if ns != [] {
      NeighborKidSays(ns[1..], xs[1..], table);
      assert NeighborFits(ns[0], xs[0]);
      PortNodeSays(NeighborPort, ns[0], xs[0], NeighborKid(ns[1..], xs[1..]), table);
      assert [ns[0]] + ns[1..] == ns;
    }
  }

  // ------------------------------------------------------------------ hardware

  /** Everything the sender holds for one interface; the record, and what the crate drops of it. */
  datatype Source = Source(details: InterfaceDetails<ChassisUse>, local: SourcePort, extras: seq<Extras>)

  predicate SourceFits(s: Source) {
    && 0 !in s.details.name && |s.details.name| <= IFNAMSIZ && |s.details.macAddress| == ETHER_ADDR_LEN
    && PortFits(s.local) && s.local.chassis == s.details.localChassis
    && NeighborsFit(s.details.neighbors, s.extras)
  }

  /** One id, one chassis: the sender's objects behind its ids. */
  predicate Named(u: ChassisUse, who: map<nat, Chassis>) {
    u.id in who && who[u.id] == u.chassis
  }

  predicate OneChassisPerId(d: InterfaceDetails<ChassisUse>, who: map<nat, Chassis>) {
    && (d.localChassis.Some? ==> Named(d.localChassis.value, who))
    && forall n | n in d.neighbors :: Named(n.chassis, who)
  }

  function TableOf(who: map<nat, Chassis>): Cache {
    map id | id in who && ChassisFits(who[id]) :: ChassisNode(id, who[id])
  }

  lemma TableNames(u: ChassisUse, who: map<nat, Chassis>)
    requires Named(u, who) && ChassisFits(u.chassis)
    ensures Tabled(u, TableOf(who))
  {
    hide ChassisFits, ChassisNode;
  }

  function HardwarePatches(l: Layout, s: Source, chain: Kid, alias: Kid): (ps: seq<Patch>)
    requires SourceFits(s)
    ensures |ps| == 5 && Ordered(ps, Size(Hardware(l)))
  {
    hide ToLe, PortFits, NeighborsFit, PortRaw, Mark;
    [Patch(NameOffset(l), s.details.name + Zeros(IFNAMSIZ - |s.details.name|)),
     Patch(AliasOffset(l), Word(Mark(alias))),
     Patch(MacOffset(l), s.details.macAddress), Patch(LocalPortOffset(l), PortRaw(s.local, Absent)),
     Patch(NeighborsOffset(l), Word(Mark(chain)))]
  }

  function HardwareRaw(l: Layout, s: Source, chain: Kid, alias: Kid): (raw: bytes)
    requires SourceFits(s)
    ensures |raw| == Size(Hardware(l))
  {
    Filled(HardwarePatches(l, s, chain, alias), Size(Hardware(l)))
  }

  function HardwareTree(l: Layout, s: Source): Tree
    requires SourceFits(s)
  {
    var chain, alias := NeighborKid(s.details.neighbors, s.extras), TextKid(s.details.alias);
    Node(1, HardwareRaw(l, s, chain, alias), [Marked(1, [Absent, Group(PortKids(s.local))]), chain, alias])
  }

  lemma {:induction false} PaddedName(name: bytes, pad: nat)
    requires 0 !in name
    ensures UntilNul(name + Zeros(pad)) == name
  {
    var s := name + Zeros(pad);
    if name == [] {
      assert s == Zeros(pad);
    } else {
      assert s[0] == name[0] && s[1..] == name[1..] + Zeros(pad);
      PaddedName(name[1..], pad);
    }
  }

  lemma HardwareRawHolds(l: Layout, s: Source, chain: Kid, alias: Kid)
    requires SourceFits(s)
    ensures var raw := HardwareRaw(l, s, chain, alias);
            && UntilNul(raw[NameOffset(l)..NameOffset(l) + IFNAMSIZ]) == s.details.name
            && raw[MacOffset(l)..MacOffset(l) + ETHER_ADDR_LEN] == s.details.macAddress
            && Inner(raw, LocalPortOffset(l), LocalPort) == PortRaw(s.local, Absent)
            && Slot(raw, AliasOffset(l)) == Mark(alias)
            && Slot(raw, NeighborsOffset(l)) == Mark(chain)
  {
    hide Slot, Filled, Ordered, ToLe, PortFits, NeighborsFit, PortRaw, UntilNul;
    var ps, size := HardwarePatches(l, s, chain, alias), Size(Hardware(l));
    FilledHolds(ps, size, 0);
    FilledSlot(ps, size, 1, Mark(alias));
    FilledHolds(ps, size, 2);
    FilledHolds(ps, size, 3);
    FilledSlot(ps, size, 4, Mark(chain));
    PaddedName(s.details.name, IFNAMSIZ - |s.details.name|);
  }

  /** The embedded local port. */
  lemma LocalKidWf(l: Layout, raw: bytes, p: SourcePort, table: Cache)
    requires PortFits(p) && |raw| == Size(Hardware(l))
    requires Inner(raw, LocalPortOffset(l), LocalPort) == PortRaw(p, Absent)
    requires p.chassis.Some? ==> Tabled(p.chassis.value, table)
    ensures var kid := Marked(1, [Absent, Group(PortKids(p))]);
            && KidWf(Hardware(l), Sub(LocalPortOffset(l), LocalPort), raw, kid)
            && KidAgrees(Hardware(l), Sub(LocalPortOffset(l), LocalPort), raw, kid, table)
  {
    hide Slot, PortRaw, PortKids, ExtrasFit, UseFits, Tabled, Inner, Fields;
    PortSchema();
    var local, kids := PortRaw(p, Absent), [Absent, Group(PortKids(p))];
    PortKidsWf(p, Absent);
    PortAgrees(p, Absent, table);
    PortSlots(p, Absent);
    assert KidWf(LocalPort, Fields(LocalPort)[0], local, kids[0]);
    assert KidWf(LocalPort, Fields(LocalPort)[1], local, kids[1]);
    assert KidsWf(LocalPort, local, kids);
    assert KidAgrees(LocalPort, Fields(LocalPort)[1], local, kids[1], table);
    assert KidsAgree(LocalPort, local, kids, table);
  }

  lemma HardwareTreeWf(l: Layout, s: Source, table: Cache)
    requires SourceFits(s)
    requires s.local.chassis.Some? ==> Tabled(s.local.chassis.value, table)
    requires forall n | n in s.details.neighbors :: Tabled(n.chassis, table)
    ensures Wf(Hardware(l), HardwareTree(l, s)) && Agrees(Hardware(l), HardwareTree(l, s), table)
  {
    hide Slot, PortKids, PortFits, NeighborsFit, Tabled, HardwareRaw, Fields, NeighborKid, PortRaw, Inner, TextKid;
    HardwareSchema(l);
    var t := HardwareTree(l, s);
    HardwareRawHolds(l, s, t.kids[1], t.kids[2]);
    LocalKidWf(l, t.raw, s.local, table);
    NeighborKidSays(s.details.neighbors, s.extras, table);
    TextKidSays(s.details.alias);
    TextKidShape(s.details.alias);
    PtrKid(Hardware(l), NeighborsOffset(l), NeighborPort, t.raw, t.kids[1]);
    PtrKid(Hardware(l), AliasOffset(l), CString, t.raw, t.kids[2]);
    assert KidsWf(Hardware(l), t.raw, t.kids);
    assert KidAgrees(Hardware(l), Fields(Hardware(l))[1], t.raw, t.kids[1], table);
    assert KidAgrees(Hardware(l), Fields(Hardware(l))[2], t.raw, t.kids[2], table);
    assert KidsAgree(Hardware(l), t.raw, t.kids, table);
  }

  lemma HardwareTreeSays(l: Layout, s: Source, table: Cache)
    requires SourceFits(s) && Wf(Hardware(l), HardwareTree(l, s))
    requires s.local.chassis.Some? ==> Tabled(s.local.chassis.value, table)
    requires forall n | n in s.details.neighbors :: Tabled(n.chassis, table)
    ensures HardwareOf(l, HardwareTree(l, s)) == s.details
  {
    hide Slot, PortKids, PortFits, NeighborsFit, Tabled, HardwareRaw, Fields, NeighborKid, PortRaw, Inner, TextKid,
      UntilNul, TextOf, NeighborsOf, PortFieldsOf, Wf, KidWf;
    var t := HardwareTree(l, s);
    HardwareRawHolds(l, s, t.kids[1], t.kids[2]);
    PortSays(s.local, Absent);
    NeighborKidSays(s.details.neighbors, s.extras, table);
    TextKidSays(s.details.alias);
  }

  /** A source's message in a layout. */
  function SourceMessage(l: Layout, s: Source): bytes
    requires SourceFits(s) && Wf(Hardware(l), HardwareTree(l, s))
  {
    Message(Hardware(l), HardwareTree(l, s))
  }

  /**
   The round trip over records. Whatever the local port, neighbors, ids (one chassis
   per id), addresses, optional strings and unsurfaced data, the message decodes to
   exactly the record, neighbors in list order.
   */
  lemma RecordRoundTrip(l: Layout, s: Source, who: map<nat, Chassis>)
    requires SourceFits(s) && OneChassisPerId(s.details, who)
    ensures Wf(Hardware(l), HardwareTree(l, s))
    ensures var m := SourceMessage(l, s);
            |m| < WORD_LIMIT ==>
              && HardwareAs(l, m) == Ok(s.details)
              && (l.Legacy? ==> HardwareIn(m) == Ok(s.details))
  {
    hide Wf, Agrees, HardwareTree, Message, HardwareAs, HardwareOf, PortFits, Tabled, Named;
    var table := TableOf(who);
    UsesTabled(s, who);
    HardwareTreeWf(l, s, table);
    HardwareTreeSays(l, s, table);
    if |SourceMessage(l, s)| < WORD_LIMIT { HardwareRoundTrip(l, HardwareTree(l, s), table); }
  }

  lemma UsesTabled(s: Source, who: map<nat, Chassis>)
    requires SourceFits(s) && OneChassisPerId(s.details, who)
    ensures s.local.chassis.Some? ==> Tabled(s.local.chassis.value, TableOf(who))
    ensures forall n | n in s.details.neighbors :: Tabled(n.chassis, TableOf(who))
  {
    hide ChassisFits, ExtrasFit, Tabled, Named, TableOf;
    if s.local.chassis.Some? { TableNames(s.local.chassis.value, who); }
    forall n | n in s.details.neighbors ensures Tabled(n.chassis, TableOf(who)) {
      var i :| 0 <= i < |s.details.neighbors| && s.details.neighbors[i] == n;
      assert NeighborFits(s.details.neighbors[i], s.extras[i]);
      TableNames(n.chassis, who);
    }
  }

  // ------------------------------------------------------------- notifications

  /** The state number of a change. */
  function StateOf(k: ChangeKind): int {
    match k
    case Added => 1
    case Updated => 0
    case Deleted => -1
    case Other(state) => state
  }

  predicate KindFits(k: ChangeKind) {
    k.Other? ==> -0x8000_0000 <= k.state < 0x8000_0000 && k.state != 1 && k.state != 0 && k.state != -1
  }

  function StateWord(k: ChangeKind): nat
    requires KindFits(k)
  {
    if StateOf(k) < 0 then StateOf(k) + U32_LIMIT else StateOf(k)
  }

  predicate ChangeFits(c: NeighborChange<ChassisUse>, x: Extras) {
    KindFits(c.kind) && (c.neighbor.Some? ==> NeighborFits(c.neighbor.value, x))
  }

  function PortKid(n: Option<Neighbor<ChassisUse>>, x: Extras): Kid
    requires n.Some? ==> NeighborFits(n.value, x)
  {
    if n.Some? then Child(PortNode(NeighborPortOf(n.value, x), Absent)) else Absent
  }

  function ChangePatches(c: NeighborChange<ChassisUse>, alias: Kid, port: Kid): (ps: seq<Patch>)
    requires KindFits(c.kind)
    ensures |ps| == 4 && Ordered(ps, CHANGE_SIZE)
  {
    hide ToLe;
    [Patch(N_IFNAME, Word(1)), Patch(N_IFALIAS, Word(Mark(alias))), Patch(N_STATE, ToLe(StateWord(c.kind), 4)),
     Patch(N_NEIGHBOR, Word(Mark(port)))]
  }

  function ChangeTree(c: NeighborChange<ChassisUse>, x: Extras): Tree
    requires ChangeFits(c, x)
  {
    var alias, port := TextKid(c.interfaceAlias), PortKid(c.neighbor, x);
    Node(1, Filled(ChangePatches(c, alias, port), CHANGE_SIZE), [Child(TextLeaf(1, c.interface)), alias, port])
  }

  lemma ChangeRawHolds(c: NeighborChange<ChassisUse>, alias: Kid, port: Kid)
    requires KindFits(c.kind)
    ensures var raw := Filled(ChangePatches(c, alias, port), CHANGE_SIZE);
            && Slot(raw, N_IFNAME) == 1 && Slot(raw, N_IFALIAS) == Mark(alias) && Slot(raw, N_NEIGHBOR) == Mark(port)
            && KindOf(Signed32(Le(raw[N_STATE..N_STATE + 4]))) == c.kind
  {
    hide Slot, Filled, Ordered, ToLe, Le;
    var ps := ChangePatches(c, alias, port);
    Widths();
    FilledSlot(ps, CHANGE_SIZE, 0, 1);
    FilledSlot(ps, CHANGE_SIZE, 1, Mark(alias));
    FilledNumber(ps, CHANGE_SIZE, 2, StateWord(c.kind), 4);
    FilledSlot(ps, CHANGE_SIZE, 3, Mark(port));
  }

  lemma ChangeTreeSays(c: NeighborChange<ChassisUse>, x: Extras, table: Cache)
    requires ChangeFits(c, x) && (c.neighbor.Some? ==> Tabled(c.neighbor.value.chassis, table))
    ensures var t := ChangeTree(c, x);
            Wf(ChangeNotice, t) && Agrees(ChangeNotice, t, table) && ChangeOf(t) == c
  {
    hide Slot, Le, Tabled, Filled, Fields, NeighborFits, TextOf, TextKid, PortNode, NeighborOf, KindOf, ChangePatches;
    ChangeSchema();
    var t := ChangeTree(c, x);
    ChangeRawHolds(c, t.kids[1], t.kids[2]);
    TextSurvives(1, c.interface);
    TextKidSays(c.interfaceAlias);
    TextKidShape(c.interfaceAlias);
    if c.neighbor.Some? { PortNodeSays(NotifiedPort, c.neighbor.value, x, Absent, table); }
    PtrKid(ChangeNotice, N_IFNAME, CString, t.raw, t.kids[0]);
    PtrKid(ChangeNotice, N_IFALIAS, CString, t.raw, t.kids[1]);
    PtrKid(ChangeNotice, N_NEIGHBOR, NotifiedPort, t.raw, t.kids[2]);
    assert KidsWf(ChangeNotice, t.raw, t.kids);
    forall i | 0 <= i < 3 ensures KidAgrees(ChangeNotice, Fields(ChangeNotice)[i], t.raw, t.kids[i], table) {
      if i < 2 { ClosedKidAgrees(ChangeNotice, Fields(ChangeNotice)[i], t.raw, t.kids[i], table); }
    }
  }

  /** Every change has a notice that decodes to it, whatever follows the notice. */
  lemma NoticeRoundTrip(c: NeighborChange<ChassisUse>, x: Extras, more: bytes)
    requires ChangeFits(c, x)
    ensures Wf(ChangeNotice, ChangeTree(c, x))
    ensures var m := Message(ChangeNotice, ChangeTree(c, x));
            |m| < WORD_LIMIT ==> ChangeIn(m + more) == Ok(c)
  {
    hide Wf, Agrees, ChangeTree, Message, ChangeIn, ChangeOf, ChassisFits, ExtrasFit;
    var who: map<nat, Chassis> := map[];
    if c.neighbor.Some? { who := map[c.neighbor.value.chassis.id := c.neighbor.value.chassis.chassis]; }
    var table := TableOf(who);
    if c.neighbor.Some? { TableNames(c.neighbor.value.chassis, who); }
    ChangeTreeSays(c, x, table);
    var m := Message(ChangeNotice, ChangeTree(c, x));
    if |m| < WORD_LIMIT {
      ChangeRoundTrip(ChangeTree(c, x), table);
      TrailingBytesIgnored(m, more);
    }
  }
}
