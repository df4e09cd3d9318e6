/** What each tree says in the crate's own result types. */
module View {
  import opened Bytes
  import opened Errors
  import opened Model
  import opened Raw
  import opened Marshal
  import opened WellFormed

  /** Field `i` of a well-formed tree follows its schema entry. */
  lemma KidAt(ty: Ty, t: Tree, i: nat)
    requires Wf(ty, t) && !IsLeaf(ty) && i < |Fields(ty)|
    ensures t.Node? && |t.raw| == Size(ty) && |t.kids| == |Fields(ty)|
    ensures KidWf(ty, Fields(ty)[i], t.raw, t.kids[i])
  {
    assert KidsWf(ty, t.raw, t.kids);
  }

  function TextOf(kid: Kid): Option<bytes> {
    if kid.Child? && kid.tree.Leaf? then Some(StripNul(kid.tree.body)) else None
  }

  function BytesOf(kid: Kid): Option<bytes> {
    if kid.Child? && kid.tree.Leaf? then Some(kid.tree.body) else None
  }

  function InterfacesOf(t: Tree): seq<Interface>
    requires Wf(Iface, t)
    decreases t
  {
    KidAt(Iface, t, 0);
    [Interface(GetOrEmpty(TextOf(t.kids[1])), TextOf(t.kids[2]))]
    + if t.kids[0].Child? then InterfacesOf(t.kids[0].tree) else []
  }

  function ListOf(t: Tree): seq<Interface>
    requires Wf(IfaceList, t)
  {
    KidAt(IfaceList, t, 0);
    if t.kids[0].Child? then InterfacesOf(t.kids[0].tree) else []
  }

  function MgmtAddress(raw: bytes): ManagementAddress
    requires |raw| == Size(Mgmt)
  {
    var len := if Slot(raw, M_ADDRSIZE) < M_MAXADDR then Slot(raw, M_ADDRSIZE) else M_MAXADDR;
    ManagementAddress(Le(raw[M_FAMILY..M_FAMILY + 4]), raw[M_ADDR..M_ADDR + len], Le(raw[M_IFACE..M_IFACE + 4]))
  }

  function MgmtOf(t: Tree): seq<ManagementAddress>
    requires Wf(Mgmt, t)
    decreases t
  {
    KidAt(Mgmt, t, 0);
    [MgmtAddress(t.raw)] + if t.kids[0].Child? then MgmtOf(t.kids[0].tree) else []
  }

  function MedOf(kids: seq<Kid>): MedInventory
    requires |kids| == 11
  {
    MedInventory(TextOf(kids[4]), TextOf(kids[5]), TextOf(kids[6]), TextOf(kids[7]),
                 TextOf(kids[8]), TextOf(kids[9]), TextOf(kids[10]))
  }

  function ChassisFrom(raw: bytes, id: Option<bytes>, name: Option<bytes>, description: Option<bytes>,
                       addresses: seq<ManagementAddress>, med: MedInventory): Chassis
    requires |raw| == Size(ChassisBox)
  {
    Chassis(
      raw[C_ID_SUBTYPE], GetOrEmpty(id), name, description,
      Le(raw[C_CAP_AVAILABLE..C_CAP_AVAILABLE + 2]), Le(raw[C_CAP_ENABLED..C_CAP_ENABLED + 2]), addresses, med)
  }

  function ChassisOf(t: Tree): Chassis
    requires Wf(ChassisBox, t)
  {
    KidAt(ChassisBox, t, 3);
    ChassisFrom(t.raw, BytesOf(t.kids[0]), TextOf(t.kids[1]), TextOf(t.kids[2]),
                if t.kids[3].Child? then MgmtOf(t.kids[3].tree) else [], MedOf(t.kids))
  }

  function PortFieldsOf(raw: bytes, kids: seq<Kid>): PortFields<ChassisUse>
    requires |raw| == Size(PortBody) && KidsWf(PortBody, raw, kids)
  {
    assert KidWf(PortBody, Fields(PortBody)[0], raw, kids[0]);
    PortFields(
      if kids[0].Child? then Some(ChassisUse(Slot(raw, P_CHASSIS), ChassisOf(kids[0].tree))) else None,
      BytesOf(kids[1]), TextOf(kids[2]))
  }

  /** A port with a chassis, as a neighbor. */
  function NeighborFrom<C>(raw: bytes, chassis: C, fields: PortFields<C>): Neighbor<C>
    requires |raw| == Size(PortBody)
  {
    Neighbor(chassis, raw[P_ID_SUBTYPE], GetOrEmpty(fields.id), fields.description, Le(raw[P_TTL..P_TTL + 2]))
  }

  function NeighborView(raw: bytes, kids: seq<Kid>): Neighbor<ChassisUse>
    requires |raw| == Size(PortBody) && KidsWf(PortBody, raw, kids) && Slot(raw, P_CHASSIS) != 0
  {
    assert KidWf(PortBody, Fields(PortBody)[0], raw, kids[0]);
    var fields := PortFieldsOf(raw, kids);
    NeighborFrom(raw, fields.chassis.value, fields)
  }

  function NeighborOf(ty: Ty, t: Tree): Neighbor<ChassisUse>
    requires (ty.NeighborPort? || ty.NotifiedPort?) && Wf(ty, t)
  {
    KidAt(ty, t, 1);
    KidAt(ty, t, 2);
    NeighborView(t.raw, t.kids[1].kids)
  }

  function NeighborsOf(t: Tree): seq<Neighbor<ChassisUse>>
    requires Wf(NeighborPort, t)
    decreases t
  {
    KidAt(NeighborPort, t, 0);
    [NeighborOf(NeighborPort, t)] + if t.kids[0].Child? then NeighborsOf(t.kids[0].tree) else []
  }

  function LocalPortOffset(l: Layout): nat {
    if l.Legacy? then H_LPORT else FP_LPORT
  }

  function NeighborsOffset(l: Layout): nat {
    if l.Legacy? then H_RPORTS_FIRST else FP_RPORTS_FIRST
  }

  function AliasOffset(l: Layout): nat {
    if l.Legacy? then H_IFALIAS else FP_IFALIAS
  }

  function NameOffset(l: Layout): nat {
    if l.Legacy? then H_IFNAME else FP_IFNAME
  }

  function MacOffset(l: Layout): nat {
    if l.Legacy? then H_LLADDR else FP_LLADDR
  }

  function LocalFieldsOf(l: Layout, t: Tree): PortFields<ChassisUse>
    requires Wf(Hardware(l), t)
  {
    KidAt(Hardware(l), t, 0);
    var local := Inner(t.raw, LocalPortOffset(l), LocalPort);
    var kids := t.kids[0].kids;
    assert KidWf(LocalPort, Fields(LocalPort)[1], local, kids[1]);
    PortFieldsOf(local, kids[1].kids)
  }

  function HardwareOf(l: Layout, t: Tree): InterfaceDetails<ChassisUse>
    requires Wf(Hardware(l), t)
  {
    KidAt(Hardware(l), t, 1);
    InterfaceDetails(
      UntilNul(t.raw[NameOffset(l)..NameOffset(l) + IFNAMSIZ]),
      TextOf(t.kids[2]),
      t.raw[MacOffset(l)..MacOffset(l) + ETHER_ADDR_LEN],
      LocalFieldsOf(l, t).chassis,
      if t.kids[1].Child? then NeighborsOf(t.kids[1].tree) else [])
  }

  function ChangeOf(t: Tree): NeighborChange<ChassisUse>
    requires Wf(ChangeNotice, t)
  {
    KidAt(ChangeNotice, t, 2);
    NeighborChange(
      GetOrEmpty(TextOf(t.kids[0])), TextOf(t.kids[1]), KindOf(Signed32(Le(t.raw[N_STATE..N_STATE + 4]))),
      if t.kids[2].Child? then Some(NeighborOf(NotifiedPort, t.kids[2].tree)) else None)
  }

  // ------------------------------------------------- payloads, read as a whole

  function InterfacesIn(payload: bytes): Result<seq<Interface>> {
    WalkWf(IfaceList, payload, 0, map[]);
    match Walk(IfaceList, payload, 0, map[])
    case Bad(reason, _) => Err(Protocol(reason))
    case Got(s, _) => Ok(ListOf(s.item))
  }

  /** One layout attempt: the message must parse and be used up. */
  function HardwareAs(l: Layout, payload: bytes): Result<InterfaceDetails<ChassisUse>> {
    WalkWf(Hardware(l), payload, 0, map[]);
    match Walk(Hardware(l), payload, 0, map[])
    case Bad(reason, _) => Err(Protocol(reason))
    case Got(s, pos) =>
      if pos != |payload| then Err(Protocol(LayoutMismatch)) else Ok(HardwareOf(l, s.item))
  }

  /** The long-stable layout first; its error is reported when neither fits. */
  function HardwareIn(payload: bytes): Result<InterfaceDetails<ChassisUse>> {
    var legacy := HardwareAs(Legacy, payload);
    if legacy.Ok? then legacy
    else
      var other := HardwareAs(FlagsPrevious, payload);
      if other.Ok? then other else legacy
  }

  function ChangeIn(payload: bytes): Result<NeighborChange<ChassisUse>> {
    WalkWf(ChangeNotice, payload, 0, map[]);
    match Walk(ChangeNotice, payload, 0, map[])
    case Bad(reason, _) => Err(Protocol(reason))
    case Got(s, _) => Ok(ChangeOf(s.item))
  }
}
