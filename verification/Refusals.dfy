/** What any chunk of any payload is, and why a payload is refused, in terms of its own words. */
module Refusals {
  import opened Bytes
  import opened Errors
  import opened Raw
  import opened Marshal
  import opened View
  import opened Schemas
  import opened Unfolding

  /** Why the chunk of type `ty` due at `pos` cannot be taken, if it cannot. */
  function ChunkFault(ty: Ty, buf: bytes, pos: nat): Option<Reason> {
    var p := AlignUp(pos, PTR);
    if p + HEADER > |buf| then Some(Truncated)
    else
      var size := Slot(buf, p + PTR);
      if size < HEADER + Size(ty) then Some(if IsLeaf(ty) then LeafTooSmall else StructTooSmall)
      else if p + (if IsLeaf(ty) then size else HEADER + Size(ty)) > |buf| then Some(Truncated)
      else None
  }

  /** A chunk that cannot be taken is refused for that reason; a leaf that can be is. */
  lemma ChunkRefused(ty: Ty, buf: bytes, pos: nat, cache: Cache)
    ensures var fault, r := ChunkFault(ty, buf, pos), Walk(ty, buf, pos, cache);
            && (fault.Some? ==> r.Bad? && r.reason == fault.value)
            && (IsLeaf(ty) ==> (fault.Some? <==> r.Bad?))
  {
    hide Slot, AlignUp, Run, Step;
  }

  /** What a chunk holds, in any bytes: its id, and its own content behind the header. */
  lemma ChunkHolds(ty: Ty, buf: bytes, pos: nat, cache: Cache)
    requires Walk(ty, buf, pos, cache).Got?
    ensures var t, p := Walk(ty, buf, pos, cache).value.item, AlignUp(pos, PTR);
            && p + HEADER + Size(ty) <= |buf| && t.orig == Slot(buf, p)
            && if IsLeaf(ty)
               then && p + HEADER <= p + Slot(buf, p + PTR) <= |buf|
                    && t == Leaf(t.orig, buf[p + HEADER..p + Slot(buf, p + PTR)])
               else t.Node? && t.raw == buf[p + HEADER..p + HEADER + Size(ty)]
  {
    hide Slot, AlignUp, Run, Step;
  }

  /** A notified port that claims a successor is refused at once, one without a chassis after its fields. */
  lemma NotifiedPortRefused(buf: bytes, pos: nat, cache: Cache)
    requires ChunkFault(NotifiedPort, buf, pos).None?
    ensures var start := AlignUp(pos, PTR) + HEADER;
            && start + PORT_SIZE <= |buf|
            && var raw, r := buf[start..start + PORT_SIZE], Walk(NotifiedPort, buf, pos, cache);
            && (Slot(raw, TQE_NEXT) != 0 ==> r.Bad? && r.reason == NotifiedPortChained)
            && (Slot(raw, TQE_NEXT) == 0 && Slot(raw, P_CHASSIS) == 0 ==>
                  && r.Bad?
                  && var body := Run(PortBody, 0, raw, buf, start + PORT_SIZE, cache, []);
                     r.reason == if body.Bad? then body.reason else NoChassis)
  {
    hide Slot, AlignUp, Fields, Run, Step;
    PortSchema();
    var fs, start := Fields(NotifiedPort), AlignUp(pos, PTR) + HEADER;
    var raw, p := buf[start..start + PORT_SIZE], start + PORT_SIZE;
    assert ReadPod(buf, pos, PORT_SIZE) == Got((Slot(buf, AlignUp(pos, PTR)), raw), p);
    PodFound(NotifiedPort, buf, pos, cache);
    StepCheck(NotifiedPort, TQE_NEXT, false, NotifiedPortChained, raw, buf, p, cache);
    RunNext(NotifiedPort, 0, raw, buf, p, cache, []);
    if Slot(raw, TQE_NEXT) == 0 && Slot(raw, P_CHASSIS) == 0 {
      assert [] + [Absent] == [Absent];
      BodyThenChassis(NotifiedPort, raw, buf, p, cache, [Absent]);
    }
  }

  lemma StepCheck(ty: Ty, off: nat, present: bool, reason: Reason, raw: bytes, buf: bytes, pos: nat, cache: Cache)
    requires |raw| == Size(ty) && off + PTR <= |raw| && pos <= |buf|
    ensures Step(ty, Check(off, present, reason), raw, buf, pos, cache)
         == if present <==> Slot(raw, off) != 0 then Got(Seen(Absent, cache), pos) else Bad(reason, pos)
  {
    hide Run, Walk, Slot;
  }

  /** Fields 1 and 2 of a port that is not embedded: its body, then the check for a chassis. */
  lemma BodyThenChassis(ty: Ty, raw: bytes, buf: bytes, pos: nat, cache: Cache, kids: seq<Kid>)
    requires (ty.NeighborPort? || ty.NotifiedPort?) && |raw| == PORT_SIZE && pos <= |buf| && |kids| == 1
    requires Slot(raw, P_CHASSIS) == 0
    ensures |Fields(ty)| == 3
    ensures var r, body := Run(ty, 1, raw, buf, pos, cache, kids), Run(PortBody, 0, raw, buf, pos, cache, []);
            r.Bad? && r.reason == if body.Bad? then body.reason else NoChassis
  {
    hide Slot, Fields, Run, Step;
    PortSchema();
    var body := Run(PortBody, 0, raw, buf, pos, cache, []);
    StepInline(ty, PortBody, raw, buf, pos, cache);
    RunNext(ty, 1, raw, buf, pos, cache, kids);
    if body.Got? {
      StepCheck(ty, P_CHASSIS, true, NoChassis, raw, buf, body.pos, body.value.cache);
      RunNext(ty, 2, raw, buf, body.pos, body.value.cache, kids + [Group(body.value.item)]);
    }
  }

  /** A chained port without a chassis is refused, after its successors and its own fields. */
  lemma ChainedPortRefused(buf: bytes, pos: nat, cache: Cache)
    requires ChunkFault(NeighborPort, buf, pos).None?
    ensures var start := AlignUp(pos, PTR) + HEADER;
            && start + PORT_SIZE <= |buf|
            && var raw, r := buf[start..start + PORT_SIZE], Walk(NeighborPort, buf, pos, cache);
               Slot(raw, P_CHASSIS) == 0 ==>
                 && r.Bad?
                 && var next := Step(NeighborPort, Ptr(TQE_NEXT, NeighborPort), raw, buf, start + PORT_SIZE, cache);
                    r.reason == if next.Bad? then next.reason
                                else
                                  var body := Run(PortBody, 0, raw, buf, next.pos, next.value.cache, []);
                                  if body.Bad? then body.reason else NoChassis
  {
    hide Slot, AlignUp, Fields, Run, Step;
    PortSchema();
    var start := AlignUp(pos, PTR) + HEADER;
    var raw, p := buf[start..start + PORT_SIZE], start + PORT_SIZE;
    assert ReadPod(buf, pos, PORT_SIZE) == Got((Slot(buf, AlignUp(pos, PTR)), raw), p);
    PodFound(NeighborPort, buf, pos, cache);
    RunNext(NeighborPort, 0, raw, buf, p, cache, []);
    var next := Step(NeighborPort, Ptr(TQE_NEXT, NeighborPort), raw, buf, p, cache);
    if Slot(raw, P_CHASSIS) == 0 && next.Got? {
      BodyThenChassis(NeighborPort, raw, buf, next.pos, next.value.cache, [next.value.item]);
      assert [] + [next.value.item] == [next.value.item];
    }
  }

  /** A local port that claims a successor is refused behind its marker. */
  lemma LocalPortRefused(l: Layout, buf: bytes, pos: nat, cache: Cache)
    requires ChunkFault(Hardware(l), buf, pos).None?
    ensures var start := AlignUp(pos, PTR) + HEADER;
            && start + Size(Hardware(l)) <= |buf|
            && var marker := AlignUp(start + Size(Hardware(l)), PTR);
               var port := start + LocalPortOffset(l);
               marker + HEADER <= |buf| && Slot(buf, port + TQE_NEXT) != 0
               ==> Walk(Hardware(l), buf, pos, cache) == Bad(LocalPortChained, marker + HEADER)
  {
    hide Slot, AlignUp, Fields;
    HardwareSchema(l);
    PortSchema();
    var start, size, off := AlignUp(pos, PTR) + HEADER, Size(Hardware(l)), LocalPortOffset(l);
    var raw, p := buf[start..start + size], start + size;
    var marker := AlignUp(p, PTR);
    assert ReadPod(buf, pos, size) == Got((Slot(buf, AlignUp(pos, PTR)), raw), p);
    if marker + HEADER <= |buf| && Slot(buf, start + off + TQE_NEXT) != 0 {
      InnerSlot(buf, start, l);
      var port, q := Inner(raw, off, LocalPort), marker + HEADER;
      assert Step(LocalPort, Fields(LocalPort)[0], port, buf, q, cache) == Bad(LocalPortChained, q);
      assert Run(LocalPort, 0, port, buf, q, cache, []) == Bad(LocalPortChained, q);
      assert Step(Hardware(l), Fields(Hardware(l))[0], raw, buf, p, cache) == Bad(LocalPortChained, q);
    }
  }

  lemma InnerSlot(buf: bytes, start: nat, l: Layout)
    requires start + Size(Hardware(l)) <= |buf|
    ensures var raw := buf[start..start + Size(Hardware(l))];
            Slot(Inner(raw, LocalPortOffset(l), LocalPort), TQE_NEXT) == Slot(buf, start + LocalPortOffset(l) + TQE_NEXT)
  {
    var raw, off := buf[start..start + Size(Hardware(l))], LocalPortOffset(l);
    SliceOfSlice(buf, start, start + Size(Hardware(l)), off, off + PORT_SIZE);
    SliceOfSlice(buf, start + off, start + off + PORT_SIZE, TQE_NEXT, TQE_NEXT + PTR);
  }

  /** The reason a reading fails for is the one the caller gets; a hardware message must also be used up. */
  lemma ReasonsSurface(payload: bytes, l: Layout)
    ensures var r := Walk(IfaceList, payload, 0, map[]);
            if r.Bad? then InterfacesIn(payload) == Err(Protocol(r.reason)) else InterfacesIn(payload).Ok?
    ensures var r := Walk(ChangeNotice, payload, 0, map[]);
            if r.Bad? then ChangeIn(payload) == Err(Protocol(r.reason)) else ChangeIn(payload).Ok?
    ensures var r := Walk(Hardware(l), payload, 0, map[]);
            if r.Bad? then HardwareAs(l, payload) == Err(Protocol(r.reason))
            else if r.pos < |payload| then HardwareAs(l, payload) == Err(Protocol(LayoutMismatch))
            else HardwareAs(l, payload).Ok?
  {
    hide Walk, Wf, HardwareOf, ListOf, ChangeOf;
  }

  /** Which error a hardware message gets: the first layout's, unless either layout fits. */
  lemma FirstErrorSurfaces(payload: bytes)
    ensures var a, b := HardwareAs(Legacy, payload), HardwareAs(FlagsPrevious, payload);
            && (HardwareIn(payload).Err? <==> a.Err? && b.Err?)
            && (a.Ok? || (a.Err? && b.Err?) ==> HardwareIn(payload) == a)
            && (a.Err? && b.Ok? ==> HardwareIn(payload) == b)
  {
    hide HardwareAs;
  }
}
