/**
 Records written in the newer layout, numbered as a sender numbers them, and read
 through `decode_hardware` itself: for every record, exactly what comes back.
 */
module Fallback {
  import opened Bytes
  import opened Errors
  import opened Raw
  import opened Model
  import opened Marshal
  import opened Emitter
  import opened View
  import opened Patches
  import opened Layouts
  import opened Payload
  import opened Disambiguation
  import opened LateSlots
  import opened Numbering
  import opened Sender
  import opened Records

  /** The message a sender writes for a source. */
  function SentMessage(l: Layout, s: Source): bytes
    requires SourceFits(s) && Wf(Hardware(l), HardwareTree(l, s)) && Wf(Hardware(l), Sent(l, HardwareTree(l, s)))
  {
    Message(Hardware(l), Sent(l, HardwareTree(l, s)))
  }

  /** Numbered, in either layout, a record decodes under that layout to itself; a legacy one always. */
  lemma SentRoundTrip(l: Layout, s: Source, who: map<nat, Chassis>)
    requires SourceFits(s) && OneChassisPerId(s.details, who)
    ensures Wf(Hardware(l), HardwareTree(l, s)) && Wf(Hardware(l), Sent(l, HardwareTree(l, s)))
    ensures var t, m := Sent(l, HardwareTree(l, s)), SentMessage(l, s);
            |m| < WORD_LIMIT ==>
              && Sequential(Hardware(l), t)
              && HardwareOf(l, t) == s.details
              && HardwareAs(l, m) == Ok(s.details)
              && (l.Legacy? ==> HardwareIn(m) == Ok(s.details))
  {
    hide Wf, Agrees, HardwareTree, Message, HardwareAs, HardwareOf, PortFits, Tabled, Named,
      Sent, Sequential, TableOf, Same;
    var table := TableOf(who);
    UsesTabled(s, who);
    HardwareTreeWf(l, s, table);
    HardwareTreeSays(l, s, table);
    var table' := SentSays(l, HardwareTree(l, s), table);
    if |SentMessage(l, s)| < WORD_LIMIT { HardwareRoundTrip(l, Sent(l, HardwareTree(l, s)), table'); }
  }

  // ------------------------------------------- what the legacy layout sees of it

  /** The places where the legacy layout, eight bytes off, looks for a port's pointers. */
  lemma PortGaps(p: SourcePort, off: nat)
    requires PortFits(p)
    requires off in {8, 80, 104, 232, 256, 280, 312, 328, 344, 360}
    ensures Slot(PortRaw(p, Absent), off) == 0
  {
    hide Slot, Filled, Ordered, ToLe, UseFits, KidOf;
    GapSlot(PortPatches(p, Absent), PORT_SIZE, off);
  }

  /** One of those places holds the id subtype, and padding. */
  lemma SubtypeSlot(p: SourcePort)
    requires PortFits(p)
    ensures Slot(PortRaw(p, Absent), P_ID_SUBTYPE) == 0 <==> p.idSubtype == 0
  {
    hide Le, Filled, Ordered, ToLe, UseFits, KidOf;
    var raw, ps := PortRaw(p, Absent), PortPatches(p, Absent);
    PortNumbers(p, Absent);
    var slot := raw[P_ID_SUBTYPE..P_ID_SUBTYPE + PTR];
    forall i | 1 <= i < PTR ensures slot[i] == 0 { GapByte(ps, PORT_SIZE, P_ID_SUBTYPE + i); }
    assert slot[0] == p.idSubtype;
    LeZero(slot);
  }

  /** Where the legacy layout looks for the alias, the newer one has the end of the name, and padding. */
  lemma NameTailSlot(s: Source, chain: Kid, alias: Kid)
    requires SourceFits(s)
    ensures Slot(HardwareRaw(FlagsPrevious, s, chain, alias), H_IFALIAS) == 0
       <==> |s.details.name| <= H_IFALIAS - FP_IFNAME
  {
    hide Le, Filled, Ordered, ToLe, PortFits, NeighborsFit, PortRaw;
    var raw, ps := HardwareRaw(FlagsPrevious, s, chain, alias), HardwarePatches(FlagsPrevious, s, chain, alias);
    var name := s.details.name;
    var size := Size(Hardware(FlagsPrevious));
    FilledHolds(ps, size, 0);
    var field := raw[FP_IFNAME..FP_IFNAME + IFNAMSIZ];
    assert field == name + Zeros(IFNAMSIZ - |name|);
    var at := H_IFALIAS - FP_IFNAME;
    var slot := raw[H_IFALIAS..H_IFALIAS + PTR];
    forall i | 0 <= i < PTR ensures slot[i] == if at + i < |name| then name[at + i] else 0 {
      if at + i < IFNAMSIZ { assert slot[i] == field[at + i]; } else { GapByte(ps, size, H_IFALIAS + i); }
    }
    if |name| > at { assert slot[0] == name[at] && name[at] in name; }
    LeZero(slot);
  }

  /** The newer layout's struct, as slots of its message at the legacy layout's places. */
  lemma StructSlots(s: Source)
    requires SourceFits(s) && Wf(Hardware(FlagsPrevious), HardwareTree(FlagsPrevious, s))
    requires Wf(Hardware(FlagsPrevious), Sent(FlagsPrevious, HardwareTree(FlagsPrevious, s)))
    requires Same(Sent(FlagsPrevious, HardwareTree(FlagsPrevious, s)), HardwareTree(FlagsPrevious, s))
    requires FP_MIN <= |SentMessage(FlagsPrevious, s)|
    ensures var m := SentMessage(FlagsPrevious, s);
            && (EarlySlotSet(m) <==> s.local.idSubtype != 0)
            && (forall j | 4 <= j < 11 :: LateSlot(m, j) == 0)
            && (LateSlot(m, 11) == 0 <==> |s.details.name| <= H_IFALIAS - FP_IFNAME)
  {
    hide Slot, Wf, PortFits, NeighborsFit, HardwareRaw, NeighborKid, Message, Sent, EarlySlotSet, LateSlot;
    var t := HardwareTree(FlagsPrevious, s);
    RawHeld(Sent(FlagsPrevious, t));
    RawSlots(s, SentMessage(FlagsPrevious, s), t.kids[1], t.kids[2]);
  }

  lemma RawSlots(s: Source, m: bytes, chain: Kid, alias: Kid)
    requires SourceFits(s) && FP_MIN <= |m|
    requires m[HEADER..HEADER + FP_HARDWARE_SIZE] == HardwareRaw(FlagsPrevious, s, chain, alias)
    ensures EarlySlotSet(m) <==> s.local.idSubtype != 0
    ensures forall j | 4 <= j < 11 :: LateSlot(m, j) == 0
    ensures LateSlot(m, 11) == 0 <==> |s.details.name| <= H_IFALIAS - FP_IFNAME
  {
    hide Slot, PortFits, NeighborsFit, HardwareRaw, PortRaw, EarlySlotSet;
    var raw := HardwareRaw(FlagsPrevious, s, chain, alias);
    HardwareRawHolds(FlagsPrevious, s, chain, alias);
    NameTailSlot(s, chain, alias);
    BeforeLocalPort(s, chain, alias);
    SlotInside(m, HEADER, HEADER + FP_HARDWARE_SIZE, H_IFALIAS);
    SlotInside(m, HEADER, HEADER + FP_HARDWARE_SIZE, H_LPORT);
    EarlyWords(s, m, raw);
    LateWords(s, m, raw);
  }

  lemma LateWords(s: Source, m: bytes, raw: bytes)
    requires SourceFits(s) && |raw| == FP_HARDWARE_SIZE && FP_MIN <= |m| && m[HEADER..HEADER + FP_HARDWARE_SIZE] == raw
    requires Inner(raw, FP_LPORT, LocalPort) == PortRaw(s.local, Absent)
    ensures forall j | 4 <= j < 11 :: LateSlot(m, j) == 0
  {
    hide Slot, PortFits, NeighborsFit, PortRaw;
    forall j | 4 <= j < 11 ensures LateSlot(m, j) == 0 {
      LateSlotOffset(m, j);
      PortWord(s, m, raw, if j == 10 then 360 else BodySlot(j) - PTR);
    }
  }

  /** A word of the local port, in the message. */
  lemma PortWord(s: Source, m: bytes, raw: bytes, off: nat)
    requires SourceFits(s) && |raw| == FP_HARDWARE_SIZE && FP_MIN <= |m| && m[HEADER..HEADER + FP_HARDWARE_SIZE] == raw
    requires Inner(raw, FP_LPORT, LocalPort) == PortRaw(s.local, Absent)
    requires off in {8, P_ID_SUBTYPE, 80, 104, 232, 256, 280, 312, 328, 344, 360}
    ensures Slot(m, HEADER + FP_LPORT + off) == Slot(PortRaw(s.local, Absent), off)
    ensures off != P_ID_SUBTYPE ==> Slot(m, HEADER + FP_LPORT + off) == 0
  {
    hide Slot, PortFits, NeighborsFit, PortRaw;
    SlotInside(m, HEADER, HEADER + FP_HARDWARE_SIZE, FP_LPORT + off);
    SlotInside(raw, FP_LPORT, FP_LPORT + PORT_SIZE, off);
    if off != P_ID_SUBTYPE { PortGaps(s.local, off); }
  }

  lemma EarlyWords(s: Source, m: bytes, raw: bytes)
    requires SourceFits(s) && |raw| == FP_HARDWARE_SIZE && FP_MIN <= |m| && m[HEADER..HEADER + FP_HARDWARE_SIZE] == raw
    requires Inner(raw, FP_LPORT, LocalPort) == PortRaw(s.local, Absent)
    requires Slot(m, HEADER + H_LPORT) == 0
    ensures EarlySlotSet(m) <==> s.local.idSubtype != 0
  {
    hide Slot, PortFits, NeighborsFit, PortRaw;
    SubtypeSlot(s.local);
    PortWord(s, m, raw, 8);
    PortWord(s, m, raw, P_ID_SUBTYPE);
    PortWord(s, m, raw, 80);
    PortWord(s, m, raw, 104);
  }

  /** Legacy slot `j` lies eight bytes before the newer layout's field. */
  lemma LateSlotOffset(m: bytes, j: nat)
    requires FP_MIN <= |m| && 4 <= j < 11
    ensures var off := if j == 10 then 360 else BodySlot(j) - PTR;
            && off in {232, 256, 280, 312, 328, 344, 360}
            && LateSlot(m, j) == Slot(m, HEADER + FP_LPORT + off)
  {
    hide Slot;
  }

  lemma BeforeLocalPort(s: Source, chain: Kid, alias: Kid)
    requires SourceFits(s)
    ensures Slot(HardwareRaw(FlagsPrevious, s, chain, alias), H_LPORT) == 0
  {
    hide Slot, Filled, Ordered, ToLe, PortFits, NeighborsFit, PortRaw;
    GapSlot(HardwarePatches(FlagsPrevious, s, chain, alias), FP_HARDWARE_SIZE, H_LPORT);
  }

  /** A message holds its struct after its header. */
  lemma RawHeld(t: Tree)
    requires Wf(Hardware(FlagsPrevious), t)
    ensures var m := Message(Hardware(FlagsPrevious), t);
            t.Node? && |m| >= HEADER + FP_HARDWARE_SIZE && m[HEADER..HEADER + FP_HARDWARE_SIZE] == t.raw
  {
    hide Wf, Message, Word, EmitRun, OrigsRun, KidsWf;
    var rest, orest := Numbering.FirstField(t);
  }

  // -------------------------------------------------------------- what comes back

  /**
   The one way a record is misread: no id subtype on the local port, a name that
   runs into the legacy layout's alias slot, and a message whose word at 720
   happens to be the number of bytes from 712 to its end.
   */
  predicate Misleading(s: Source, m: bytes) {
    && s.local.idSubtype == 0
    && |s.details.name| > H_IFALIAS - FP_IFNAME
    && |m| >= LATER_CHUNK + HEADER && HEADER <= Slot(m, LATER_CHUNK + PTR) == |m| - LATER_CHUNK
  }

  /**
   The newer layout, for every record: it comes back as it was if and only if its
   message is not misleading; and if it is, what comes back is known too, and has
   another name.
   */
  lemma NewerRecordExactly(s: Source, who: map<nat, Chassis>)
    requires SourceFits(s) && OneChassisPerId(s.details, who)
    ensures Wf(Hardware(FlagsPrevious), HardwareTree(FlagsPrevious, s))
    ensures Wf(Hardware(FlagsPrevious), Sent(FlagsPrevious, HardwareTree(FlagsPrevious, s)))
    ensures var m := SentMessage(FlagsPrevious, s);
            |m| < WORD_LIMIT ==>
              && FP_MIN <= |m|
              && HardwareIn(m) == (if Misleading(s, m) then Ok(LegacyReading(m)) else Ok(s.details))
              && (HardwareIn(m) == Ok(s.details) <==> !Misleading(s, m))
  {
    hide Slot, Message, Wf, HardwareAs, PortFits, NeighborsFit, OneChassisPerId, EarlySlotSet, LateSlot, LegacyEnd,
      LegacyReading, HardwareTree, Sent, Sequential, HardwareOf;
    SentRoundTrip(FlagsPrevious, s, who);
    var m := SentMessage(FlagsPrevious, s);
    if |m| < WORD_LIMIT {
      LegacyStart(m);
      SentIsSame(s, who);
      RawHeld(Sent(FlagsPrevious, HardwareTree(FlagsPrevious, s)));
      StructSlots(s);
      ThirdChunk(Sent(FlagsPrevious, HardwareTree(FlagsPrevious, s)));
      if s.local.idSubtype != 0 || |s.details.name| <= H_IFALIAS - FP_IFNAME {
        NewerLayoutDecodes(m);
      } else {
        OnlyLastLeaf(m, 11);
        NewerLayoutExactly(m);
        MisreadName(s, m);
      }
    }
  }

  /** The legacy layout takes four zero bytes for the start of the name. */
  lemma MisreadName(s: Source, m: bytes)
    requires SourceFits(s) && FP_MIN <= |m| && Wf(Hardware(FlagsPrevious), HardwareTree(FlagsPrevious, s))
    requires m[HEADER..HEADER + FP_HARDWARE_SIZE] == HardwareTree(FlagsPrevious, s).raw
    ensures LegacyReading(m).name == []
  {
    hide Wf, Filled, Ordered, ToLe, PortFits, NeighborsFit, PortRaw, NeighborKid, LegacyAlias;
    var t := HardwareTree(FlagsPrevious, s);
    GapByte(HardwarePatches(FlagsPrevious, s, t.kids[1], t.kids[2]), FP_HARDWARE_SIZE, H_IFNAME);
    assert m[HEADER + H_IFNAME] == m[HEADER..HEADER + FP_HARDWARE_SIZE][H_IFNAME] == 0;
  }

  lemma SentIsSame(s: Source, who: map<nat, Chassis>)
    requires SourceFits(s) && OneChassisPerId(s.details, who)
    ensures Wf(Hardware(FlagsPrevious), HardwareTree(FlagsPrevious, s))
    ensures Same(Sent(FlagsPrevious, HardwareTree(FlagsPrevious, s)), HardwareTree(FlagsPrevious, s))
  {
    hide Wf, Agrees, HardwareTree, HardwareOf, PortFits, Tabled, Named, Sent, TableOf, Same;
    UsesTabled(s, who);
    HardwareTreeWf(FlagsPrevious, s, TableOf(who));
    var table' := SentSays(FlagsPrevious, HardwareTree(FlagsPrevious, s), TableOf(who));
  }

  /** A sent record comes back whole, in either layout, unless it is misleading in the newer one. */
  lemma SentDecodes(l: Layout, s: Source, who: map<nat, Chassis>)
    requires SourceFits(s) && OneChassisPerId(s.details, who)
    ensures Wf(Hardware(l), HardwareTree(l, s)) && Wf(Hardware(l), Sent(l, HardwareTree(l, s)))
    ensures var m := SentMessage(l, s);
            |m| < WORD_LIMIT && (l.Legacy? || !Misleading(s, m)) ==> HardwareIn(m) == Ok(s.details)
  {
    hide Wf, HardwareTree, Message, SourceFits, Sent, Misleading, HardwareIn, HardwareAs, HardwareOf,
      Sequential, OneChassisPerId;
    SentRoundTrip(l, s, who);
    if !l.Legacy? { NewerRecordExactly(s, who); }
  }

  /**
   Data the crate does not surface never disturbs what it does, whatever its size
   and whichever layouts the two messages are in.
   */
  lemma UnsurfacedInvisible(l: Layout, s: Source, k: Layout, r: Source, who: map<nat, Chassis>)
    requires SourceFits(s) && SourceFits(r) && s.details == r.details && OneChassisPerId(s.details, who)
    ensures Wf(Hardware(l), HardwareTree(l, s)) && Wf(Hardware(l), Sent(l, HardwareTree(l, s)))
    ensures Wf(Hardware(k), HardwareTree(k, r)) && Wf(Hardware(k), Sent(k, HardwareTree(k, r)))
    ensures var m, n := SentMessage(l, s), SentMessage(k, r);
            && (|m| < WORD_LIMIT && (l.Legacy? || !Misleading(s, m))
                && |n| < WORD_LIMIT && (k.Legacy? || !Misleading(r, n))
                ==> HardwareIn(m) == HardwareIn(n) == Ok(s.details))
  {
    hide Wf, HardwareTree, Message, SourceFits, Sent, Misleading, HardwareIn, OneChassisPerId, SentMessage;
    SentDecodes(l, s, who);
    SentDecodes(k, r, who);
  }
}
