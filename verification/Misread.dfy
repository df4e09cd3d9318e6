/**
 A record that is misread: well formed, sequentially numbered, accepted by its own
 layout, and decoded by the crate to something else.
 */
module Misread {
  import opened Bytes
  import opened Errors
  import opened Raw
  import opened Model
  import opened Marshal
  import opened Emitter
  import opened View
  import opened Schemas
  import opened Layouts
  import opened Payload
  import opened Disambiguation
  import opened LateSlots
  import opened Numbering
  import opened Sender
  import opened Records
  import opened Fallback

  /** A name of thirteen bytes: one too many. */
  const LONG_NAME: nat := 13

  /** The length of the message from where the legacy layout looks for an alias: the code of `@`. */
  const TAIL: nat := 64

  /** A port description of 33 bytes that ends in just that character. */
  function Description(): (text: bytes)
    ensures |text| == 33 && text[32] == TAIL
  {
    seq(32, _ => 97) + [TAIL]
  }

  /** An interface with a long name, a local port with that description and no id, and nothing else. */
  function Witness(): Source {
    var nothing := Extras(Absent, [Absent, Absent, Absent], Absent, Absent, Absent);
    Source(
      InterfaceDetails(seq(LONG_NAME, _ => 97), None, Zeros(ETHER_ADDR_LEN), None, []),
      SourcePort(None, 0, None, Some(Description()), 0, nothing),
      [])
  }

  lemma WitnessFits()
    ensures SourceFits(Witness()) && OneChassisPerId(Witness().details, map[])
  {
  }

  // ------------------------------------------------------------------- its bytes

  /** Only a description and bare location markers. */
  predicate TextOnly(kids: seq<Kid>, body: bytes) {
    && |kids| == 10
    && kids[2].Child? && kids[2].tree.Leaf? && kids[2].tree.body == body
    && (forall i | 0 <= i < 10 && i != 2 && !(4 <= i < 7) :: kids[i] == Absent)
    && (forall i | 4 <= i < 7 :: kids[i].Marked? && kids[i].kids == [Absent])
  }

  /** The description's chunk ends after 66 bytes; six bytes of padding follow. */
  lemma TextBytes(raw: bytes, kids: seq<Kid>, body: bytes)
    requires |raw| == PORT_SIZE && KidsWf(PortBody, raw, kids) && TextOnly(kids, body) && |body| == 34
    ensures var b := EmitRun(PortBody, 0, raw, kids, HEADER, {}).0;
            |b| == 104 && b[16..50] == body && b[50..56] == Pad(66)
  {
    hide Fields, Slot, KidsWf, KidWf, Word, EmitRun, OrigsRun, EmitKid, OrigsKid, Pad;
    PortBodySchema();
    SkipAbsent(PortBody, 0, raw, kids, 16, {});
    SkipAbsent(PortBody, 1, raw, kids, 16, {});
    RunHead(PortBody, 2, raw, kids, 16, {});
    LeafKid(raw, kids[2], body);
    SkipAbsent(PortBody, 3, raw, kids, 66, {});
    PaddedMarker(raw, kids[4].orig, kids);
    BareMarker(5, raw, kids[5].orig, kids, 88, {});
    BareMarker(6, raw, kids[6].orig, kids, 104, {});
    AllAbsent(PortBody, 7, raw, kids, 120, {});
  }

  lemma LeafKid(raw: bytes, kid: Kid, body: bytes)
    requires |raw| == PORT_SIZE && KidWf(PortBody, Ptr(P_DESCR, CString), raw, kid) && |body| == 34
    requires kid.Child? && kid.tree.Leaf? && kid.tree.body == body
    ensures var (b, d) := EmitKid(PortBody, Ptr(P_DESCR, CString), raw, kid, 16, {});
            b == Word(kid.tree.orig) + Word(50) + body && d == {}
  {
    hide Slot, Word, AlignUp;
    AlignWord(16, 0);
    assert Pad(16) == [];
    var b := Word(kid.tree.orig) + Word(50) + body;
    assert [] + b == b;
  }

  /** The first marker, after the padding. */
  lemma PaddedMarker(raw: bytes, o: nat, kids: seq<Kid>)
    requires |raw| == PORT_SIZE && KidsWf(PortBody, raw, kids) && |kids| == 10 && kids[4] == Marked(o, [Absent])
    ensures |Pad(66)| == 6
    ensures var (b, d) := EmitRun(PortBody, 5, raw, kids, 88, {});
            EmitRun(PortBody, 4, raw, kids, 66, {}) == (Pad(66) + (Word(o) + Word(HEADER)) + b, d)
  {
    hide Fields, Slot, KidsWf, EmitRun, OrigsRun, OrigsKid, Inner, ToLe;
    RunHead(PortBody, 4, raw, kids, 66, {});
    BodyFields();
    assert BodySlot(4) - LOC_DATA == P_MED_LOCATION_0;
    var loc := Inner(raw, P_MED_LOCATION_0, MedLoc);
    assert KidWf(PortBody, Sub(P_MED_LOCATION_0, MedLoc), raw, kids[4]);
    AllAbsent(MedLoc, 0, loc, [Absent], HEADER, {});
    var head := Word(o) + Word(HEADER);
    assert head + [] == head;
  }

  /** Such a message is 776 bytes long, and its word at 720 is the number of bytes from 712 on. */
  lemma WitnessBytes(t: Tree)
    requires Wf(Hardware(FlagsPrevious), t) && t.Node? && |t.kids| == 3 && t.kids[0].Marked?
    requires |t.kids[0].kids| == 2 && t.kids[0].kids[1].Group? && TextOnly(t.kids[0].kids[1].kids, Description() + [0])
    requires t.kids[1] == Absent && t.kids[2] == Absent
    ensures var m := Message(Hardware(FlagsPrevious), t);
            |m| == LATER_CHUNK + TAIL && Slot(m, LATER_CHUNK + PTR) == TAIL
  {
    hide Fields, Slot, OrigsRun, EmitRun, ToLe, AlignUp, Message, Origs, Wf, KidsWf, Inner, Description, Word, Pad;
    HardwareShape(FlagsPrevious, t);
    var local, kid := Inner(t.raw, FP_LPORT, LocalPort), t.kids[0];
    TextBytes(local, kid.kids[1].kids, Description() + [0]);
    LocalBytes(local, kid.kids);
    var rest, orest := FirstField(t);
    var b := EmitRun(LocalPort, 0, local, kid.kids, HEADER, {}).0;
    var m := Message(Hardware(FlagsPrevious), t);
    var front := Word(t.orig) + Word(|m|) + t.raw + Word(kid.orig) + Word(HEADER + |b|);
    assert m == front + b;
    WordAt(m, front, b, Description() + [0]);
  }

  lemma WordAt(m: bytes, front: bytes, b: bytes, body: bytes)
    requires m == front + b && |front| == 672 && |b| == 104 && |body| == 34 && body[32] == TAIL && body[33] == 0
    requires b[16..50] == body && b[50..56] == Pad(66)
    ensures |m| == LATER_CHUNK + TAIL && Slot(m, LATER_CHUNK + PTR) == TAIL
  {
    hide AlignUp;
    var word := m[LATER_CHUNK + PTR..LATER_CHUNK + 2 * PTR];
    assert word == b[48..56];
    assert b[48] == b[16..50][32] && b[49] == b[16..50][33];
    forall i | 2 <= i < PTR ensures word[i] == 0 { assert word[i] == b[50..56][i - 2]; }
    LeZero(word[1..]);
  }

  /** The shape of the numbered tree. */
  lemma WitnessShape(t: Tree)
    requires SourceFits(Witness()) && Same(t, HardwareTree(FlagsPrevious, Witness()))
    ensures t.Node? && |t.kids| == 3 && t.kids[0].Marked? && |t.kids[0].kids| == 2 && t.kids[0].kids[1].Group?
    ensures TextOnly(t.kids[0].kids[1].kids, Description() + [0]) && t.kids[1] == Absent && t.kids[2] == Absent
  {
    hide HardwareRaw, Description, SourceFits, PortRaw, PortKids, ExtrasFit, Wf;
    var o := HardwareTree(FlagsPrevious, Witness());
    LocalFits(Witness());
    assert SameKid(t.kids[0], o.kids[0]) && SameKid(t.kids[1], o.kids[1]) && SameKid(t.kids[2], o.kids[2]);
    assert SameKids(t.kids[0].kids, o.kids[0].kids);
    assert SameKid(t.kids[0].kids[1], o.kids[0].kids[1]);
    ShapeOfBody(t.kids[0].kids[1].kids);
  }

  lemma LocalFits(s: Source)
    requires SourceFits(s)
    ensures PortFits(s.local)
  {
  }

  lemma ShapeOfBody(kids: seq<Kid>)
    requires PortFits(Witness().local) && SameKids(kids, PortKids(Witness().local))
    ensures TextOnly(kids, Description() + [0])
  {
    hide Description;
    var o := PortKids(Witness().local);
    forall i | 0 <= i < 10 ensures SameKid(kids[i], o[i]) {}
    assert Same(kids[2].tree, Leaf(1, Description() + [0]));
    BareLocation(kids[4]);
    BareLocation(kids[5]);
    BareLocation(kids[6]);
  }

  lemma BareLocation(kid: Kid)
    requires SameKid(kid, Marked(1, [Absent]))
    ensures kid.Marked? && kid.kids == [Absent]
  {
    assert SameKids(kid.kids, [Absent]);
    assert SameKid(kid.kids[0], Absent);
  }

  /**
   The counterexample to "every message in the newer layout decodes to its own
   view": a record whose sequentially numbered message its own layout reads back,
   and the crate takes for an interface without a name.
   */
  lemma NewerLayoutCanBeMisread()
    ensures var ty, s, t := Hardware(FlagsPrevious), Witness(), HardwareTree(FlagsPrevious, Witness());
            && SourceFits(s) && OneChassisPerId(s.details, map[])
            && Wf(ty, t) && Wf(ty, Sent(FlagsPrevious, t)) && Sequential(ty, Sent(FlagsPrevious, t))
            && var m := SentMessage(FlagsPrevious, s);
               && |m| == 776 && Misleading(s, m)
               && HardwareAs(FlagsPrevious, m) == Ok(s.details)
               && HardwareIn(m) == Ok(LegacyReading(m)) && HardwareIn(m) != Ok(s.details)
  {
    hide Wf, HardwareTree, Message, Sent, HardwareIn, HardwareAs, HardwareOf, Sequential, LegacyReading, Slot, Same;
    var s := Witness();
    WitnessFits();
    SentRoundTrip(FlagsPrevious, s, map[]);
    SentIsSame(s, map[]);
    var t := Sent(FlagsPrevious, HardwareTree(FlagsPrevious, s));
    WitnessShape(t);
    WitnessBytes(t);
    NewerRecordExactly(s, map[]);
  }
}
