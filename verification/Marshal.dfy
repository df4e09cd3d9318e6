/**
 The marshal grammar, as one schema-driven reader and one schema-driven writer.

 A payload is a pre-order walk of chunks `[pad][orig][size][content]`. `Fields`
 lists, for every struct type that occurs, what follows its content on the wire.
 `Walk` reads any type by following that table; it is the reference that the
 hand-written decoders of module Decode are proved against. `Emit` writes the
 same grammar.
 */
module Marshal {
  import opened Bytes
  import opened Errors
  import opened Raw

  datatype Layout = Legacy | FlagsPrevious

  datatype Ty =
    | CString                  // null-terminated leaf
    | Blob                     // fixed-length leaf
    | IfaceList
    | Iface
    | Mgmt
    | ChassisBox
    | Vlan
    | Ppvid
    | Pi
    | MedLoc                   // embedded, three times in a port
    | PortBody                 // the fields every port shares
    | LocalPort                // embedded in the hardware struct
    | NeighborPort             // chained
    | NotifiedPort             // alone in a change notice
    | Hardware(layout: Layout)
    | ChangeNotice
    | PortSet

  datatype Field =
    | Ptr(off: nat, target: Ty)                        // a chunk follows iff the slot is nonzero
    | Shared(off: nat)                                 // a chassis, but only at its id's first occurrence
    | Sub(off: nat, target: Ty)                        // embedded struct: a marker header, then its fields
    | Inline(target: Ty)                               // the same struct's remaining fields
    | Check(off: nat, present: bool, reason: Reason)   // reads nothing; the slot must be nonzero, or zero

  const HEADER: nat := 2 * PTR

  predicate IsLeaf(ty: Ty) {
    ty.CString? || ty.Blob?
  }

  /** `size_of` the struct on a 64-bit target. */
  function Size(ty: Ty): nat {
    match ty
    case CString => 0
    case Blob => 0
    case IfaceList => INTERFACE_LIST_SIZE
    case Iface => INTERFACE_SIZE
    case Mgmt => MGMT_SIZE
    case ChassisBox => CHASSIS_SIZE
    case Vlan => VLAN_SIZE
    case Ppvid => PPVID_SIZE
    case Pi => PI_SIZE
    case MedLoc => MED_LOC_SIZE
    case PortBody => PORT_SIZE
    case LocalPort => PORT_SIZE
    case NeighborPort => PORT_SIZE
    case NotifiedPort => PORT_SIZE
    case Hardware(l) => if l.Legacy? then HARDWARE_SIZE else FP_HARDWARE_SIZE
    case ChangeNotice => CHANGE_SIZE
    case PortSet => PORT_SET_SIZE
  }

  /** The bytes of a struct embedded at offset `off`. */
  function Inner(raw: bytes, off: nat, ty: Ty): (r: bytes)
    requires off + Size(ty) <= |raw|
    ensures |r| == Size(ty)
  {
    raw[off..off + Size(ty)]
  }

  function Level(ty: Ty): nat {
    if ty.PortBody? then 1 else 2
  }

  predicate Fits(f: Field, ty: Ty) {
    match f
    case Ptr(off, _) => off + PTR <= Size(ty)
    case Shared(off) => off + PTR <= Size(ty)
    case Sub(off, t) => off + Size(t) <= Size(ty)
    case Inline(t) => Size(t) == Size(ty) && Level(t) < Level(ty)
    case Check(off, _, _) => off + PTR <= Size(ty)
  }

  function Fields(ty: Ty): (fs: seq<Field>)
    ensures forall i | 0 <= i < |fs| :: Fits(fs[i], ty)
  {
    match ty
    case CString => []
    case Blob => []
    case IfaceList => [Ptr(TQH_FIRST, Iface)]
    case Iface => [Ptr(TQE_NEXT, Iface), Ptr(I_NAME, CString), Ptr(I_ALIAS, CString)]
    case Mgmt => [Ptr(TQE_NEXT, Mgmt)]
    case ChassisBox =>
      [Ptr(C_ID, Blob), Ptr(C_NAME, CString), Ptr(C_DESCR, CString), Ptr(C_MGMT_FIRST, Mgmt),
       Ptr(C_MED_HW, CString), Ptr(C_MED_FW, CString), Ptr(C_MED_SW, CString), Ptr(C_MED_SN, CString),
       Ptr(C_MED_MANUF, CString), Ptr(C_MED_MODEL, CString), Ptr(C_MED_ASSET, CString)]
    case Vlan => [Ptr(TQE_NEXT, Vlan), Ptr(V_NAME, CString)]
    case Ppvid => [Ptr(TQE_NEXT, Ppvid)]
    case Pi => [Ptr(TQE_NEXT, Pi), Ptr(P_PI, Blob)]
    case MedLoc => [Ptr(LOC_DATA, Blob)]
    case PortBody =>
      [Shared(P_CHASSIS), Ptr(P_ID, Blob), Ptr(P_DESCR, CString), Ptr(P_VLAN_PATTERN, CString),
       Sub(P_MED_LOCATION_0, MedLoc), Sub(P_MED_LOCATION_1, MedLoc), Sub(P_MED_LOCATION_2, MedLoc),
       Ptr(P_VLANS_FIRST, Vlan), Ptr(P_PPVIDS_FIRST, Ppvid), Ptr(P_PIDS_FIRST, Pi)]
    case LocalPort => [Check(TQE_NEXT, false, LocalPortChained), Inline(PortBody)]
    case NeighborPort => [Ptr(TQE_NEXT, NeighborPort), Inline(PortBody), Check(P_CHASSIS, true, NoChassis)]
    case NotifiedPort => [Check(TQE_NEXT, false, NotifiedPortChained), Inline(PortBody), Check(P_CHASSIS, true, NoChassis)]
    case Hardware(l) =>
      if l.Legacy?
      then [Sub(H_LPORT, LocalPort), Ptr(H_RPORTS_FIRST, NeighborPort), Ptr(H_IFALIAS, CString)]
      else [Sub(FP_LPORT, LocalPort), Ptr(FP_RPORTS_FIRST, NeighborPort), Ptr(FP_IFALIAS, CString)]
    case ChangeNotice => [Ptr(N_IFNAME, CString), Ptr(N_IFALIAS, CString), Ptr(N_NEIGHBOR, NotifiedPort)]
    case PortSet => [Ptr(S_IFNAME, CString), Ptr(S_LOCAL_DESCR, CString)]
  }

  /**
   What a payload holds. Every use of a shared chassis carries the chassis
   itself; the wire carries it once.
   */
  datatype Tree =
    | Leaf(orig: nat, body: bytes)
    | Node(orig: nat, raw: bytes, kids: seq<Kid>)

  datatype Kid =
    | Absent
    | Child(tree: Tree)
    | Marked(orig: nat, kids: seq<Kid>)
    | Group(kids: seq<Kid>)

  predicate Passes(present: bool, slot: nat) {
    present <==> slot != 0
  }

  predicate Wf(ty: Ty, t: Tree)
    decreases t
  {
    && t.orig < WORD_LIMIT
    && if IsLeaf(ty) then t.Leaf? else t.Node? && |t.raw| == Size(ty) && KidsWf(ty, t.raw, t.kids)
  }

  predicate KidsWf(ty: Ty, raw: bytes, kids: seq<Kid>)
    requires |raw| == Size(ty)
    decreases kids
  {
    && |kids| == |Fields(ty)|
    && forall i | 0 <= i < |kids| :: KidWf(ty, Fields(ty)[i], raw, kids[i])
  }

  /** A chunk is present exactly when its pointer slot is nonzero. */
  predicate KidWf(ty: Ty, f: Field, raw: bytes, kid: Kid)
    requires |raw| == Size(ty) && Fits(f, ty)
    decreases kid
  {
    match f
    case Ptr(off, t) =>
      if Slot(raw, off) == 0 then kid.Absent? else kid.Child? && Wf(t, kid.tree)
    case Shared(off) =>
      if Slot(raw, off) == 0 then kid.Absent? else kid.Child? && Wf(ChassisBox, kid.tree)
    case Sub(off, t) =>
      kid.Marked? && kid.orig < WORD_LIMIT && KidsWf(t, Inner(raw, off, t), kid.kids)
    case Inline(t) =>
      kid.Group? && KidsWf(t, raw, kid.kids)
    case Check(off, present, _) =>
      kid.Absent? && Passes(present, Slot(raw, off))
  }

  // ---------------------------------------------------------------- reading

  /** Outcome of reading at a position: the value and the position after it, or where it failed. */
  datatype Read<+T> = Got(value: T, pos: nat) | Bad(reason: Reason, pos: nat) {
    predicate IsFailure() {
      Bad?
    }

    function PropagateFailure<U>(): Read<U>
      requires Bad?
    {
      Bad(reason, pos)
    }

    function Extract(): (T, nat)
      requires Got?
    {
      (value, pos)
    }
  }

  /** Chassis seen so far, by the sender's raw pointer value. */
  type Cache = map<nat, Tree>

  datatype Seen<+T> = Seen(item: T, cache: Cache)

  /** Skips alignment padding, then reads `(orig, size)`. */
  function ReadHeader(buf: bytes, pos: nat): (r: Read<(nat, nat)>)
    ensures r.Got? ==> pos + HEADER <= r.pos <= |buf| && r.value.0 < WORD_LIMIT && r.value.1 < WORD_LIMIT
    ensures r.Got? ==> r.pos == AlignUp(pos, 8) + HEADER
    ensures r.Bad? && pos <= |buf| ==> pos <= r.pos < |buf| + PTR
  {
    var p := AlignUp(pos, 8);
    if p + HEADER > |buf| then Bad(Truncated, p)
    else
      SlotBound(buf, p);
      SlotBound(buf, p + PTR);
      Got((Slot(buf, p), Slot(buf, p + PTR)), p + HEADER)
  }

  function ReadLeaf(buf: bytes, pos: nat): (r: Read<Tree>)
    ensures r.Got? ==> pos + HEADER <= r.pos <= |buf| && r.value.Leaf? && r.value.orig < WORD_LIMIT
    ensures r.Bad? && pos <= |buf| ==> pos <= r.pos < |buf| + PTR
  {
    var ((orig, size), p) :- ReadHeader(buf, pos);
    if size < HEADER then Bad(LeafTooSmall, p)
    else if p + (size - HEADER) > |buf| then Bad(Truncated, p)
    else Got(Leaf(orig, buf[p..p + (size - HEADER)]), p + (size - HEADER))
  }

  /** A struct chunk's header and its `n` content bytes. The declared size is only a lower bound. */
  function ReadPod(buf: bytes, pos: nat, n: nat): (r: Read<(nat, bytes)>)
    ensures r.Got? ==> pos + HEADER + n <= r.pos <= |buf| && |r.value.1| == n && r.value.0 < WORD_LIMIT
    ensures r.Bad? && pos <= |buf| ==> pos <= r.pos < |buf| + PTR
  {
    var ((orig, size), p) :- ReadHeader(buf, pos);
    if size < HEADER + n then Bad(StructTooSmall, p)
    else if p + n > |buf| then Bad(Truncated, p)
    else Got((orig, buf[p..p + n]), p + n)
  }

  /** Reads one chunk of type `ty` with everything nested in it. */
  function Walk(ty: Ty, buf: bytes, pos: nat, cache: Cache): (r: Read<Seen<Tree>>)
    ensures r.Got? ==> pos + HEADER + Size(ty) <= r.pos <= |buf|
    ensures r.Bad? && pos <= |buf| ==> pos <= r.pos < |buf| + PTR
    decreases if pos <= |buf| then |buf| - pos else 0, 0, 0, 0
  {
    if IsLeaf(ty) then
      var (t, p) :- ReadLeaf(buf, pos);
      Got(Seen(t, cache), p)
    else
      var ((orig, raw), p) :- ReadPod(buf, pos, Size(ty));
      var (s, q) :- Run(ty, 0, raw, buf, p, cache, []);
      Got(Seen(Node(orig, raw, s.item), s.cache), q)
  }

  /** Reads fields `i..` of a struct whose first `i` fields gave `kids`. */
  function Run(ty: Ty, i: nat, raw: bytes, buf: bytes, pos: nat, cache: Cache,
               kids: seq<Kid>): (r: Read<Seen<seq<Kid>>>)
    requires |raw| == Size(ty) && i <= |Fields(ty)| && pos <= |buf|
    ensures r.Got? ==> pos <= r.pos <= |buf|
    ensures r.Bad? ==> pos <= r.pos < |buf| + PTR
    decreases |buf| - pos, Level(ty), |Fields(ty)| - i, 1
  {
    if i == |Fields(ty)| then Got(Seen(kids, cache), pos)
    else
      var (s, p) :- Step(ty, Fields(ty)[i], raw, buf, pos, cache);
      Run(ty, i + 1, raw, buf, p, s.cache, kids + [s.item])
  }

  /** Reads one field of a struct. */
  function Step(ty: Ty, f: Field, raw: bytes, buf: bytes, pos: nat, cache: Cache): (r: Read<Seen<Kid>>)
    requires |raw| == Size(ty) && Fits(f, ty) && pos <= |buf|
    ensures r.Got? ==> pos <= r.pos <= |buf|
    ensures r.Bad? ==> pos <= r.pos < |buf| + PTR
    decreases |buf| - pos, Level(ty), 0, 0
  {
    match f
    case Ptr(off, t) =>
      if Slot(raw, off) == 0 then Got(Seen(Absent, cache), pos)
      else
        var (s, p) :- Walk(t, buf, pos, cache);
        Got(Seen(Child(s.item), s.cache), p)
    case Shared(off) =>
      var id := Slot(raw, off);
      if id == 0 then Got(Seen(Absent, cache), pos)
      else if id in cache then Got(Seen(Child(cache[id]), cache), pos)
      else
        var (s, p) :- Walk(ChassisBox, buf, pos, cache);
        Got(Seen(Child(s.item), s.cache[id := s.item]), p)
    case Sub(off, t) =>
      var ((orig, _), p) :- ReadHeader(buf, pos);
      var (s, q) :- Run(t, 0, Inner(raw, off, t), buf, p, cache, []);
      Got(Seen(Marked(orig, s.item), s.cache), q)
    case Inline(t) =>
      var (s, p) :- Run(t, 0, raw, buf, pos, cache, []);
      Got(Seen(Group(s.item), s.cache), p)
    case Check(off, present, reason) =>
      if Passes(present, Slot(raw, off)) then Got(Seen(Absent, cache), pos) else Bad(reason, pos)
  }
}
