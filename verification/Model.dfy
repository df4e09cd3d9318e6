/** The crate's result types. Strings are byte strings. */
module Model {
  import opened Bytes
  import opened Errors

  datatype Interface = Interface(name: bytes, alias: Option<bytes>)

  datatype ManagementAddress = ManagementAddress(family: nat, octets: bytes, interfaceIndex: nat)

  datatype MedInventory = MedInventory(
    hardwareRevision: Option<bytes>, firmwareRevision: Option<bytes>, softwareRevision: Option<bytes>,
    serialNumber: Option<bytes>, manufacturer: Option<bytes>, model: Option<bytes>, assetId: Option<bytes>)

  datatype Chassis = Chassis(
    idSubtype: byte, id: bytes, name: Option<bytes>, description: Option<bytes>,
    capabilitiesAvailable: nat, capabilitiesEnabled: nat,
    managementAddresses: seq<ManagementAddress>, med: MedInventory)

  /** A shared, immutable chassis: the object behind `Arc<Chassis>`. */
  class ChassisArc {
    const chassis: Chassis

    constructor (chassis: Chassis)
      ensures this.chassis == chassis
    {
      this.chassis := chassis;
    }
  }

  /** One use of a chassis on the wire: the sender's id for it, and what it says. */
  datatype ChassisUse = ChassisUse(id: nat, chassis: Chassis)

  /** `C` is how a chassis is held: by object, by use, or by value. */
  datatype Neighbor<+C> = Neighbor(
    chassis: C, portIdSubtype: byte, portId: bytes, portDescription: Option<bytes>, ttl: nat)

  datatype InterfaceDetails<+C> = InterfaceDetails(
    name: bytes, alias: Option<bytes>, macAddress: bytes, localChassis: Option<C>, neighbors: seq<Neighbor<C>>)

  datatype ChangeKind = Added | Updated | Deleted | Other(state: int)

  datatype NeighborChange<+C> = NeighborChange(
    interface: bytes, interfaceAlias: Option<bytes>, kind: ChangeKind, neighbor: Option<Neighbor<C>>)

  /** The fields of a port after its own chain pointer. */
  datatype PortFields<+C> = PortFields(chassis: Option<C>, id: Option<bytes>, description: Option<bytes>)

  function GetOrEmpty(o: Option<bytes>): bytes {
    match o
    case None => []
    case Some(b) => b
  }

  function KindOf(state: int): ChangeKind {
    if state == 1 then Added
    else if state == 0 then Updated
    else if state == -1 then Deleted
    else Other(state)
  }

  /** Two's complement reading of a 32-bit number. */
  function Signed32(v: nat): int {
    if v < 0x8000_0000 then v else v - 0x1_0000_0000
  }

  function StripNul(body: bytes): bytes {
    if body != [] && body[|body| - 1] == 0 then body[..|body| - 1] else body
  }

  /** The text before the first NUL of a fixed-size name field. */
  function UntilNul(s: bytes): (name: bytes)
    ensures |name| <= |s| && s[..|name|] == name && 0 !in name
    ensures |name| < |s| ==> s[|name|] == 0
  {
    if s == [] || s[0] == 0 then [] else [s[0]] + UntilNul(s[1..])
  }
}
