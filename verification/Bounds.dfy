/** How many bytes an accepted message must have, and so how deep the recursion goes. */
module Bounds {
  import opened Bytes
  import opened Errors
  import opened Raw
  import opened Model
  import opened Marshal
  import opened Unfolding
  import opened WellFormed
  import opened View
  import opened Schemas
  import opened Chains
  import opened Transport

  /** Location markers still to be read from field `i` of a port body on. */
  function MarkersLeft(i: nat): nat {
    if i <= 4 then 3 else if i < 7 then 7 - i else 0
  }

  lemma PortMarkers()
    ensures |Fields(PortBody)| == 10
    ensures forall i | 4 <= i < 7 :: Fields(PortBody)[i].Sub?
  {
  }

  lemma SubSpan(f: Field, raw: bytes, buf: bytes, pos: nat, cache: Cache)
    requires f.Sub? && |raw| == PORT_SIZE && Fits(f, PortBody) && pos <= |buf|
    ensures var s := Step(PortBody, f, raw, buf, pos, cache);
            s.Got? ==> s.pos >= pos + HEADER
  {
    hide Run, Fields, Inner, ReadHeader;
    HeaderSpan(buf, pos);
  }

  lemma HeaderSpan(buf: bytes, pos: nat)
    ensures ReadHeader(buf, pos).Got? ==> ReadHeader(buf, pos).pos >= pos + HEADER
  {
  }

  /** A port body takes at least its three location markers. */
  lemma {:induction false} BodySpan(i: nat, raw: bytes, buf: bytes, pos: nat, cache: Cache, kids: seq<Kid>)
    requires |raw| == PORT_SIZE && i <= |Fields(PortBody)| && pos <= |buf|
    ensures var r := Run(PortBody, i, raw, buf, pos, cache, kids);
            r.Got? ==> r.pos >= pos + HEADER * MarkersLeft(i)
    decreases |Fields(PortBody)| - i
  {
    hide Step, Fields;
    PortMarkers();
    if i < |Fields(PortBody)| {
      var f := Fields(PortBody)[i];
      var s := Step(PortBody, f, raw, buf, pos, cache);
      if f.Sub? { SubSpan(f, raw, buf, pos, cache); }
      if s.Got? { BodySpan(i + 1, raw, buf, s.pos, s.value.cache, kids + [s.value.item]); }
    }
  }

  const NEIGHBOR_SPAN: nat := HEADER + PORT_SIZE + 3 * HEADER
  const INTERFACE_SPAN: nat := HEADER + INTERFACE_SIZE

  /** A link field advances by the chunk it leads to. */
  lemma LinkSpan(ty: Ty, raw: bytes, buf: bytes, pos: nat, cache: Cache)
    requires |raw| == Size(ty) && Fits(Ptr(0, ty), ty) && pos <= |buf|
    ensures var s := Step(ty, Ptr(0, ty), raw, buf, pos, cache);
            var w := Walk(ty, buf, pos, cache);
            s.Got? ==> if Slot(raw, 0) == 0 then s.pos == pos && s.value.item == Absent
                       else w.Got? && s.pos == w.pos && s.value.item == Child(w.value.item)
  {
    hide Walk, Slot;
  }

  /** Number of elements of a nested list. */
  function Length(ty: Ty, t: Tree): nat
    decreases t
  {
    if t.Node? && |t.kids| > 0 && t.kids[0].Child? then 1 + Length(ty, t.kids[0].tree) else 1
  }

  /** Each chained port takes 432 bytes or more. */
  lemma {:induction false} NeighborChainSpan(buf: bytes, pos: nat, cache: Cache)
    requires pos <= |buf|
    ensures var w := Walk(NeighborPort, buf, pos, cache);
            w.Got? ==> w.pos >= pos + NEIGHBOR_SPAN * Length(NeighborPort, w.value.item)
    decreases |buf| - pos
  {
    hide Fields, Run, ReadPod, Slot, Walk;
    PortSchema();
    PodFound(NeighborPort, buf, pos, cache);
    var p := ReadPod(buf, pos, PORT_SIZE);
    if p.Got? {
      if Slot(p.value.1, 0) != 0 { NeighborChainSpan(buf, p.pos, cache); }
      NeighborBodySpan(p.value.1, buf, p.pos, cache);
    }
  }

  /** After a chained port's struct: the rest of the chain, then its own body. */
  lemma NeighborBodySpan(raw: bytes, buf: bytes, pos: nat, cache: Cache)
    requires |raw| == PORT_SIZE && pos <= |buf|
    requires var w := Walk(NeighborPort, buf, pos, cache);
             Slot(raw, 0) != 0 && w.Got? ==> w.pos >= pos + NEIGHBOR_SPAN * Length(NeighborPort, w.value.item)
    ensures |Fields(NeighborPort)| == 3
    ensures var r := Run(NeighborPort, 0, raw, buf, pos, cache, []);
            r.Got? ==>
              && |r.value.item| == 3
              && r.pos >= pos + 3 * HEADER
                 + if r.value.item[0].Child? then NEIGHBOR_SPAN * Length(NeighborPort, r.value.item[0].tree) else 0
  {
    hide Fields, Step, Slot, Walk, Length;
    PortSchema();
    LinkSpan(NeighborPort, raw, buf, pos, cache);
    var s := Step(NeighborPort, Fields(NeighborPort)[0], raw, buf, pos, cache);
    if s.Got? {
      var k := [] + [s.value.item];
      assert Run(NeighborPort, 0, raw, buf, pos, cache, []) == Run(NeighborPort, 1, raw, buf, s.pos, s.value.cache, k);
      InlineSpan(NeighborPort, raw, buf, s.pos, s.value.cache);
      var b := Step(NeighborPort, Fields(NeighborPort)[1], raw, buf, s.pos, s.value.cache);
      if b.Got? { RunPrefix(NeighborPort, 2, raw, buf, b.pos, b.value.cache, k + [b.value.item]); }
    }
  }

  /** The shared body read inside a port. */
  lemma InlineSpan(ty: Ty, raw: bytes, buf: bytes, pos: nat, cache: Cache)
    requires |raw| == PORT_SIZE == Size(ty) && Fits(Inline(PortBody), ty) && pos <= |buf|
    ensures var s := Step(ty, Inline(PortBody), raw, buf, pos, cache);
            s.Got? ==> s.pos >= pos + 3 * HEADER
  {
    hide Run, Fields;
    BodySpan(0, raw, buf, pos, cache, []);
  }

  lemma {:induction false} InterfaceChainSpan(buf: bytes, pos: nat, cache: Cache)
    requires pos <= |buf|
    ensures var w := Walk(Iface, buf, pos, cache);
            w.Got? ==> w.pos >= pos + INTERFACE_SPAN * Length(Iface, w.value.item)
    decreases |buf| - pos
  {
    hide Fields, Step, ReadPod, Slot, Walk;
    IfaceSchema();
    PodFound(Iface, buf, pos, cache);
    var p := ReadPod(buf, pos, INTERFACE_SIZE);
    if p.Got? {
      var raw := p.value.1;
      LinkSpan(Iface, raw, buf, p.pos, cache);
      InterfaceChainSpan(buf, p.pos, cache);
      var s := Step(Iface, Fields(Iface)[0], raw, buf, p.pos, cache);
      if s.Got? { RunPrefix(Iface, 1, raw, buf, s.pos, s.value.cache, [] + [s.value.item]); }
    }
  }

  lemma {:induction false} NeighborCount(t: Tree)
    requires Wf(NeighborPort, t)
    ensures |NeighborsOf(t)| == Length(NeighborPort, t)
    decreases t
  {
    hide Fields, NeighborOf;
    PortSchema();
    IfaceSchema();
    KidAt(NeighborPort, t, 0);
    if t.kids[0].Child? { NeighborCount(t.kids[0].tree); }
  }

  lemma {:induction false} InterfaceCount(t: Tree)
    requires Wf(Iface, t)
    ensures |InterfacesOf(t)| == Length(Iface, t)
    decreases t
  {
    hide Fields;
    PortSchema();
    IfaceSchema();
    KidAt(Iface, t, 0);
    if t.kids[0].Child? { InterfaceCount(t.kids[0].tree); }
  }

  /** The embedded local port takes its own marker and its body's three. */
  lemma LocalSpan(l: Layout, raw: bytes, buf: bytes, pos: nat, cache: Cache)
    requires |raw| == Size(Hardware(l)) && pos <= |buf|
    ensures var s := Step(Hardware(l), Sub(LocalPortOffset(l), LocalPort), raw, buf, pos, cache);
            s.Got? ==> s.pos >= pos + 4 * HEADER
  {
    hide Fields, Inner, ReadHeader, Slot;
    PortSchema();
    IfaceSchema();
    HeaderSpan(buf, pos);
    var h := ReadHeader(buf, pos);
    if h.Got? {
      var local := Inner(raw, LocalPortOffset(l), LocalPort);
      var c := Step(LocalPort, Fields(LocalPort)[0], local, buf, h.pos, cache);
      assert c == if Slot(local, 0) == 0 then Got(Seen(Absent, cache), h.pos) else Bad(LocalPortChained, h.pos);
      assert Run(LocalPort, 0, local, buf, h.pos, cache, [])
          == if c.Bad? then Bad(c.reason, c.pos) else Run(LocalPort, 1, local, buf, h.pos, cache, [] + [Absent]);
      InlineSpan(LocalPort, local, buf, h.pos, cache);
      var b := Step(LocalPort, Inline(PortBody), local, buf, h.pos, cache);
      if b.Got? { RunPrefix(LocalPort, 2, local, buf, b.pos, b.value.cache, [] + [Absent] + [b.value.item]); }
    }
  }

  /** An accepted hardware message holds its struct, four markers, and 432 bytes per neighbor. */
  lemma HardwareBound(l: Layout, payload: bytes)
    requires HardwareAs(l, payload).Ok?
    ensures HEADER + Size(Hardware(l)) + 4 * HEADER + NEIGHBOR_SPAN * |HardwareAs(l, payload).value.neighbors| <= |payload|
  {
    hide Walk, Run, Step, ReadPod, Slot, NeighborsOf, Wf, Fields;
    WalkWf(Hardware(l), payload, 0, map[]);
    HardwareSchema(l);
    HardwareParts(l, payload);
  }

  lemma HardwareParts(l: Layout, payload: bytes)
    ensures var w := Walk(Hardware(l), payload, 0, map[]);
            w.Got? && Wf(Hardware(l), w.value.item) ==>
              w.pos >= HEADER + Size(Hardware(l)) + 4 * HEADER + NEIGHBOR_SPAN * |HardwareOf(l, w.value.item).neighbors|
  {
    hide Step, ReadPod, Slot, NeighborsOf, Fields, LocalFieldsOf, UntilNul, TextOf;
    HardwareSchema(l);
    var p := ReadPod(payload, 0, Size(Hardware(l)));
    if p.Got? {
      var raw := p.value.1;
      LocalSpan(l, raw, payload, p.pos, map[]);
      var a := Step(Hardware(l), Fields(Hardware(l))[0], raw, payload, p.pos, map[]);
      assert Run(Hardware(l), 0, raw, payload, p.pos, map[], [])
          == if a.Bad? then Bad(a.reason, a.pos) else Run(Hardware(l), 1, raw, payload, a.pos, a.value.cache, [] + [a.value.item]);
      if a.Got? {
        ChainFieldSpan(l, raw, payload, a.pos, a.value.cache);
        var b := Step(Hardware(l), Fields(Hardware(l))[1], raw, payload, a.pos, a.value.cache);
        if b.Got? {
          var k := [] + [a.value.item] + [b.value.item];
          RunPrefix(Hardware(l), 2, raw, payload, b.pos, b.value.cache, k);
          var r := Run(Hardware(l), 2, raw, payload, b.pos, b.value.cache, k);
          if r.Got? {
            assert r.value.item[1] == r.value.item[..2][1] == b.value.item;
            assert Run(Hardware(l), 0, raw, payload, p.pos, map[], [])
                == Run(Hardware(l), 1, raw, payload, a.pos, a.value.cache, [] + [a.value.item]) == r;
            var t := Walk(Hardware(l), payload, 0, map[]).value.item;
            if Wf(Hardware(l), t) {
              KidAt(Hardware(l), t, 1);
              if b.value.item.Child? { NeighborCount(b.value.item.tree); }
            }
          }
        }
      }
    }
  }

  lemma ChainFieldSpan(l: Layout, raw: bytes, buf: bytes, pos: nat, cache: Cache)
    requires |raw| == Size(Hardware(l)) && pos <= |buf|
    ensures var s := Step(Hardware(l), Ptr(NeighborsOffset(l), NeighborPort), raw, buf, pos, cache);
            s.Got? ==> s.pos >= pos + if s.value.item.Child? then NEIGHBOR_SPAN * Length(NeighborPort, s.value.item.tree) else 0
  {
    hide Walk, Slot, Length;
    NeighborChainSpan(buf, pos, cache);
  }

  /** An accepted interface list takes 48 bytes per interface after its 32-byte head. */
  lemma InterfacesBound(payload: bytes)
    requires InterfacesIn(payload).Ok?
    ensures HEADER + INTERFACE_LIST_SIZE + INTERFACE_SPAN * |InterfacesIn(payload).value| <= |payload|
  {
    hide Step, ReadPod, Slot, InterfacesOf, Fields, Wf;
    WalkWf(IfaceList, payload, 0, map[]);
    PortSchema();
    IfaceSchema();
    var p := ReadPod(payload, 0, INTERFACE_LIST_SIZE);
    var s := Step(IfaceList, Fields(IfaceList)[0], p.value.1, payload, p.pos, map[]);
    ListLinkSpan(p.value.1, payload, p.pos);
    RunPrefix(IfaceList, 1, p.value.1, payload, s.pos, s.value.cache, [] + [s.value.item]);
    var t := Walk(IfaceList, payload, 0, map[]).value.item;
    KidAt(IfaceList, t, 0);
    if t.kids[0].Child? { InterfaceCount(t.kids[0].tree); }
  }

  lemma ListLinkSpan(raw: bytes, buf: bytes, pos: nat)
    requires |raw| == INTERFACE_LIST_SIZE && pos <= |buf|
    ensures var s := Step(IfaceList, Ptr(0, Iface), raw, buf, pos, map[]);
            s.Got? ==> s.pos >= pos + if s.value.item.Child? then INTERFACE_SPAN * Length(Iface, s.value.item.tree) else 0
  {
    hide Walk, Slot, Length;
    InterfaceChainSpan(buf, pos, map[]);
  }

  /** Under the message cap an accepted message lists at most this much. */
  lemma ListsUnderCap(payload: bytes)
    requires |payload| <= HMSG_MAX_SIZE
    ensures HardwareIn(payload).Ok? ==> |HardwareIn(payload).value.neighbors| <= 1211
    ensures InterfacesIn(payload).Ok? ==> |InterfacesIn(payload).value| <= 10922
  {
    hide HardwareAs, InterfacesIn;
    if HardwareAs(Legacy, payload).Ok? { HardwareBound(Legacy, payload); }
    if HardwareAs(FlagsPrevious, payload).Ok? { HardwareBound(FlagsPrevious, payload); }
    if InterfacesIn(payload).Ok? { InterfacesBound(payload); }
  }

  /**
   Under the message cap, and whether or not the message is accepted, a list's
   decoder calls itself at most this often from wherever it starts. (For calls of
   different decoders open at once, see `level` in module Decode.)
   */
  lemma DepthUnderCap(ty: Ty, payload: bytes, pos: nat)
    requires Chained(ty) && pos <= |payload| <= HMSG_MAX_SIZE
    ensures ty in {Iface, Mgmt, Vlan, Ppvid, Pi, NeighborPort}
    ensures Levels(ty, payload, pos) - 1
         <= if ty.NeighborPort? then 1365 else if ty.Mgmt? then 7281 else if ty.Ppvid? then 13107 else 10922
  {
    hide Levels;
    ListsAreChained(ty);
    LevelsBound(ty, payload, pos);
  }
}
