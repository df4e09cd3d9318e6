/**
 There is no version tag: `decode_hardware` tries the legacy layout first. When
 does a message in the newer layout reach the second attempt? This module sets the
 question up and answers it for the slots before the location markers; module
 LateSlots takes up the others.
 */
module Disambiguation {
  import opened Bytes
  import opened Errors
  import opened Raw
  import opened Marshal
  import opened WellFormed
  import opened View
  import opened Schemas
  import opened Bounds

  /** Where the legacy layout looks for field `off` of the local port in a whole message. */
  function LegacyLocalSlot(p: bytes, off: nat): nat
    requires HEADER + H_LPORT + off + PTR <= |p|
  {
    Slot(p, HEADER + H_LPORT + off)
  }

  /** The smallest message the newer layout accepts. */
  const FP_MIN: nat := 720

  /** Offset of the third chunk's `orig` in a message of the newer layout. */
  const THIRD_CHUNK: nat := 672

  /** A pointer slot the legacy layout consults before the location markers is nonzero. */
  predicate EarlySlotSet(p: bytes)
    requires FP_MIN <= |p|
  {
    || LegacyLocalSlot(p, TQE_NEXT) != 0
    || LegacyLocalSlot(p, P_CHASSIS) != 0
    || LegacyLocalSlot(p, P_ID) != 0
    || LegacyLocalSlot(p, P_DESCR) != 0
    || LegacyLocalSlot(p, P_VLAN_PATTERN) != 0
  }

  // ------------------------------------------------------- the legacy attempt

  /** The legacy attempt gets as far as its local port on any message the newer layout accepts. */
  lemma LegacyStart(p: bytes)
    requires HardwareAs(FlagsPrevious, p).Ok?
    ensures FP_MIN <= |p|
    ensures var pod := ReadPod(p, 0, HARDWARE_SIZE);
            pod.Got? && pod.pos == HEADER + HARDWARE_SIZE && pod.value.1 == p[HEADER..HEADER + HARDWARE_SIZE]
  {
    hide Run, Slot, HardwareOf, Wf;
    HardwareBound(FlagsPrevious, p);
    assert Walk(Hardware(FlagsPrevious), p, 0, map[]).Got?;
    assert ReadPod(p, 0, FP_HARDWARE_SIZE).Got?;
  }

  /** The legacy struct's fields, as slots of the message. */
  lemma LegacySlots(p: bytes, off: nat)
    requires FP_MIN <= |p|
    ensures var raw := p[HEADER..HEADER + HARDWARE_SIZE];
            && (off + PTR <= HARDWARE_SIZE ==> Slot(raw, off) == Slot(p, HEADER + off))
            && (off + PTR <= PORT_SIZE ==> Slot(Inner(raw, H_LPORT, LocalPort), off) == LegacyLocalSlot(p, off))
  {
    hide Le;
    var raw := p[HEADER..HEADER + HARDWARE_SIZE];
    if off + PTR <= HARDWARE_SIZE {
      SliceOfSlice(p, HEADER, HEADER + HARDWARE_SIZE, off, off + PTR);
    }
    if off + PTR <= PORT_SIZE {
      SliceOfSlice(p, HEADER, HEADER + HARDWARE_SIZE, H_LPORT, H_LPORT + PORT_SIZE);
      SliceOfSlice(p, HEADER + H_LPORT, HEADER + H_LPORT + PORT_SIZE, off, off + PTR);
    }
  }

  /** An aligned header that fits is read as it stands. */
  lemma HeaderAt(p: bytes, pos: nat)
    requires pos % 8 == 0 && pos + HEADER <= |p|
    ensures ReadHeader(p, pos) == Got((Slot(p, pos), Slot(p, pos + PTR)), pos + HEADER)
  {
    hide Slot;
  }

  /** A chunk whose declared size is below 16 is neither a leaf nor a chassis. */
  lemma SmallSizeFails(ty: Ty, p: bytes, pos: nat, cache: Cache)
    requires ty in {CString, Blob, ChassisBox}
    requires pos % 8 == 0 && pos + HEADER <= |p| && Slot(p, pos + PTR) < HEADER
    ensures Walk(ty, p, pos, cache).Bad?
  {
    hide Slot, Run, ReadHeader;
    HeaderAt(p, pos);
  }

  /** Slot consulted by field `i`, before the location markers. */
  function EarlySlot(i: nat): nat
    requires i < 4
  {
    if i == 0 then P_CHASSIS else if i == 1 then P_ID else if i == 2 then P_DESCR else P_VLAN_PATTERN
  }

  /** Where the next header's size is below 16, the first set slot stops the port body. */
  lemma {:induction false} EarlySlotStops(i: nat, raw: bytes, p: bytes, pos: nat, kids: seq<Kid>)
    requires i < 4 && |raw| == PORT_SIZE
    requires pos % 8 == 0 && pos + HEADER <= |p| && Slot(p, pos + PTR) < HEADER
    requires exists j | i <= j < 4 :: Slot(raw, EarlySlot(j)) != 0
    ensures Run(PortBody, i, raw, p, pos, map[], kids).Bad?
    decreases 4 - i
  {
    hide Slot, Fields, Walk;
    PortBodySchema();
    PortSchema();
    var f := Fields(PortBody)[i];
    SmallSizeFails(ChassisBox, p, pos, map[]);
    SmallSizeFails(Blob, p, pos, map[]);
    SmallSizeFails(CString, p, pos, map[]);
    if Slot(raw, EarlySlot(i)) == 0 {
      assert Step(PortBody, f, raw, p, pos, map[]) == Got(Seen(Absent, map[]), pos);
      EarlySlotStops(i + 1, raw, p, pos, kids + [Absent]);
    } else {
      assert Step(PortBody, f, raw, p, pos, map[]).Bad?;
    }
  }

  /** The legacy attempt's reading of its local port. */
  function LegacyLocalStep(p: bytes): Read<Seen<Kid>>
    requires FP_MIN <= |p|
  {
    Step(Hardware(Legacy), Sub(H_LPORT, LocalPort), p[HEADER..HEADER + HARDWARE_SIZE], p, HEADER + HARDWARE_SIZE, map[])
  }

  /** The legacy local port of a message, whose marker is the header after the struct. */
  lemma LegacyLocal(p: bytes)
    requires FP_MIN <= |p|
    ensures var raw := p[HEADER..HEADER + HARDWARE_SIZE];
            var lport := Inner(raw, H_LPORT, LocalPort);
            var s := Step(Hardware(Legacy), Sub(H_LPORT, LocalPort), raw, p, HEADER + HARDWARE_SIZE, map[]);
            var body := Run(PortBody, 0, lport, p, HEADER + HARDWARE_SIZE + HEADER, map[], []);
            && (Slot(lport, TQE_NEXT) != 0 ==> s.Bad?)
            && (body.Bad? ==> s.Bad?)
            && (Slot(lport, TQE_NEXT) == 0 && body.Got? ==>
                  && s.Got? && s.pos == body.pos && s.value.cache == body.value.cache
                  && s.value.item == Marked(Slot(p, HEADER + HARDWARE_SIZE), [Absent, Group(body.value.item)]))
  {
    hide Slot, Fields, Inner, ReadHeader;
    PortBodySchema();
    PortSchema();
    HeaderAt(p, HEADER + HARDWARE_SIZE);
    var raw := p[HEADER..HEADER + HARDWARE_SIZE];
    var lport := Inner(raw, H_LPORT, LocalPort);
    var pos := HEADER + HARDWARE_SIZE + HEADER;
    var body := Run(PortBody, 0, lport, p, pos, map[], []);
    var c := Step(LocalPort, Fields(LocalPort)[0], lport, p, pos, map[]);
    assert c == if Slot(lport, TQE_NEXT) == 0 then Got(Seen(Absent, map[]), pos) else Bad(LocalPortChained, pos);
    if c.Got? {
      assert [] + [Absent] == [Absent];
      assert Run(LocalPort, 0, lport, p, pos, map[], []) == Run(LocalPort, 1, lport, p, pos, map[], [Absent]);
      var b := Step(LocalPort, Fields(LocalPort)[1], lport, p, pos, map[]);
      assert b == if body.Bad? then Bad(body.reason, body.pos) else Got(Seen(Group(body.value.item), body.value.cache), body.pos);
      if b.Got? {
        assert [Absent] + [Group(body.value.item)] == [Absent, Group(body.value.item)];
        assert Run(LocalPort, 2, lport, p, b.pos, b.value.cache, [Absent, Group(body.value.item)])
            == Got(Seen([Absent, Group(body.value.item)], b.value.cache), b.pos);
      }
    }
  }

  /** If the local port fails, so does the legacy attempt. */
  lemma LegacyFails(p: bytes)
    requires HardwareAs(FlagsPrevious, p).Ok?
    requires var raw := p[HEADER..HEADER + HARDWARE_SIZE];
             |p| >= FP_MIN && Step(Hardware(Legacy), Sub(H_LPORT, LocalPort), raw, p, HEADER + HARDWARE_SIZE, map[]).Bad?
    ensures HardwareAs(Legacy, p).Err?
  {
    hide Slot, Fields, Step, ReadPod, HardwareOf, Wf;
    LegacyStart(p);
    HardwareSchema(Legacy);
    WalkWf(Hardware(Legacy), p, 0, map[]);
  }

  /**
   First class. Ids are small and sequential, so the third chunk's `orig` is
   below 16. Then a nonzero early slot defeats the legacy attempt: the slot reads
   as a chained port, or the size it then finds is that `orig`.
   */
  lemma EarlySlotReachesFallback(p: bytes)
    requires HardwareAs(FlagsPrevious, p).Ok?
    requires FP_MIN <= |p| && Slot(p, THIRD_CHUNK) < HEADER && EarlySlotSet(p)
    ensures HardwareAs(Legacy, p).Err?
    ensures HardwareIn(p) == HardwareAs(FlagsPrevious, p)
  {
    hide Slot, Fields, Step, Run, HardwareAs, Inner;
    LegacyStart(p);
    var raw := p[HEADER..HEADER + HARDWARE_SIZE];
    var lport := Inner(raw, H_LPORT, LocalPort);
    LegacySlots(p, TQE_NEXT);
    LegacySlots(p, P_CHASSIS);
    LegacySlots(p, P_ID);
    LegacySlots(p, P_DESCR);
    LegacySlots(p, P_VLAN_PATTERN);
    LegacyLocal(p);
    if Slot(lport, TQE_NEXT) == 0 {
      var j := if Slot(lport, EarlySlot(0)) != 0 then 0
               else if Slot(lport, EarlySlot(1)) != 0 then 1
               else if Slot(lport, EarlySlot(2)) != 0 then 2 else 3;
      assert Slot(lport, EarlySlot(j)) != 0;
      EarlySlotStops(0, lport, p, HEADER + HARDWARE_SIZE + HEADER, []);
    }
    LegacyFails(p);
  }

  /** The slot field `i` of a port body reads as a pointer. */
  function BodySlot(i: nat): nat
    requires i < 10
  {
    if i < 4 then EarlySlot(i)
    else if i == 4 then P_MED_LOCATION_0 + LOC_DATA
    else if i == 5 then P_MED_LOCATION_1 + LOC_DATA
    else if i == 6 then P_MED_LOCATION_2 + LOC_DATA
    else if i == 7 then P_VLANS_FIRST
    else if i == 8 then P_PPVIDS_FIRST
    else P_PIDS_FIRST
  }

  lemma BodyFields()
    ensures |Fields(PortBody)| == 10 && Fields(PortBody)[0] == Shared(P_CHASSIS)
    ensures forall i | 1 <= i < 10 && !(4 <= i < 7) :: Fields(PortBody)[i].Ptr? && Fields(PortBody)[i].off == BodySlot(i)
    ensures forall i | 4 <= i < 7 :: Fields(PortBody)[i] == Sub(BodySlot(i) - LOC_DATA, MedLoc)
    ensures Fields(MedLoc) == [Ptr(LOC_DATA, Blob)]
  {
  }

  /** A nonzero local port id subtype sets the slot the legacy layout takes for `p_id`. */
  lemma SubtypeSetsEarlySlot(p: bytes)
    requires FP_MIN <= |p| && p[HEADER + FP_LPORT + P_ID_SUBTYPE] != 0
    ensures EarlySlotSet(p)
  {
    hide Le;
    var at := HEADER + H_LPORT + P_ID;
    LeZero(p[at..at + PTR]);
    assert p[at..at + PTR][0] == p[at];
  }
}
