/**
 What the legacy attempt makes of a newer-layout message none of whose early slots
 is set: the positions it visits, computed from words of the message, and exactly
 when it accepts.
 */
module LateSlots {
  import opened Bytes
  import opened Errors
  import opened Raw
  import opened Model
  import opened Marshal
  import opened WellFormed
  import opened View
  import opened Schemas
  import opened Disambiguation

  /** The slots consulted from the location markers on, in order: locations, chains, neighbors, alias. */
  function LateSlot(p: bytes, j: nat): nat
    requires FP_MIN <= |p| && 4 <= j < 12
  {
    if j < 10 then LegacyLocalSlot(p, BodySlot(j))
    else if j == 10 then Slot(p, HEADER + H_RPORTS_FIRST)
    else Slot(p, HEADER + H_IFALIAS)
  }

  /** Where the legacy attempt reads the first header of its local port's body. */
  const LEGACY_BODY: nat := HEADER + HARDWARE_SIZE + HEADER

  /** Where a chunk behind the first, the second, or any later of the late slots would be: 680, 696, 712. */
  const FIRST_CHUNK: nat := LEGACY_BODY + HEADER
  const SECOND_CHUNK: nat := FIRST_CHUNK + HEADER
  const LATER_CHUNK: nat := SECOND_CHUNK + HEADER

  // -------------------------------------------------------- positions, as words

  /** The end of the header found from `pos` on. */
  function AfterHeader(p: bytes, pos: nat): (r: Option<nat>)
    ensures r.Some? ==> pos <= r.value <= |p|
  {
    var q := AlignUp(pos, 8);
    if q + HEADER <= |p| then Some(q + HEADER) else None
  }

  /** The end of the leaf found from `pos` on. */
  function AfterLeaf(p: bytes, pos: nat): (r: Option<nat>)
    ensures r.Some? ==> pos <= r.value <= |p|
  {
    var q := AlignUp(pos, 8);
    if q + HEADER <= |p| && HEADER <= Slot(p, q + PTR) <= |p| - q then Some(q + Slot(p, q + PTR)) else None
  }

  function AfterOptLeaf(p: bytes, pos: nat, slot: nat): (r: Option<nat>)
    requires pos <= |p|
    ensures r.Some? ==> pos <= r.value <= |p|
  {
    if slot == 0 then Some(pos) else AfterLeaf(p, pos)
  }

  /** The end of a location: its marker, and its data if its slot is set. */
  function AfterLocation(p: bytes, pos: nat, slot: nat): (r: Option<nat>)
    ensures r.Some? ==> pos <= r.value <= |p|
  {
    match AfterHeader(p, pos)
    case None => None
    case Some(q) => AfterOptLeaf(p, q, slot)
  }

  /** The end of an unsurfaced chain: structs up to the first zero link, then the strings backwards. */
  function AfterChain(ty: Ty, p: bytes, pos: nat): (r: Option<nat>)
    requires ty in {Vlan, Ppvid, Pi}
    ensures r.Some? ==> pos <= r.value <= |p|
    decreases if pos <= |p| then |p| - pos else 0
  {
    var q := AlignUp(pos, 8);
    var body := q + HEADER + Size(ty);
    if body > |p| || Slot(p, q + PTR) < HEADER + Size(ty) then None
    else
      match if Slot(p, q + HEADER) == 0 then Some(body) else AfterChain(ty, p, body)
      case None => None
      case Some(r) => if ty.Ppvid? then Some(r) else AfterOptLeaf(p, r, Slot(p, q + HEADER + V_NAME))
  }

  function AfterOptChain(ty: Ty, p: bytes, pos: nat, slot: nat): (r: Option<nat>)
    requires ty in {Vlan, Ppvid, Pi} && pos <= |p|
    ensures r.Some? ==> pos <= r.value <= |p|
  {
    if slot == 0 then Some(pos) else AfterChain(ty, p, pos)
  }

  /** The end of field `j` of the legacy local port's body. */
  function AfterField(p: bytes, j: nat, pos: nat): (r: Option<nat>)
    requires FP_MIN <= |p| && 4 <= j < 10 && pos <= |p|
    ensures r.Some? ==> pos <= r.value <= |p|
  {
    var slot := LateSlot(p, j);
    if j < 7 then AfterLocation(p, pos, slot)
    else AfterOptChain(if j == 7 then Vlan else if j == 8 then Ppvid else Pi, p, pos, slot)
  }

  /** The end of fields `j..`. */
  function AfterFields(p: bytes, j: nat, pos: nat): (r: Option<nat>)
    requires FP_MIN <= |p| && 4 <= j <= 10 && pos <= |p|
    ensures r.Some? ==> pos <= r.value <= |p|
    decreases 10 - j
  {
    if j == 10 then Some(pos)
    else
      match AfterField(p, j, pos)
      case None => None
      case Some(q) => AfterFields(p, j + 1, q)
  }

  /** The end of the legacy attempt, when it reads no neighbors. */
  function LegacyEnd(p: bytes): Option<nat>
    requires FP_MIN <= |p|
  {
    match AfterFields(p, 4, LEGACY_BODY)
    case None => None
    case Some(q) => AfterOptLeaf(p, q, LateSlot(p, 11))
  }

  // ------------------------------------------------ the positions are the reader's

  /** A read that succeeds exactly where the arithmetic does, and ends where it says. */
  predicate EndsAt<T>(r: Read<T>, end: Option<nat>) {
    (r.Got? <==> end.Some?) && (r.Got? ==> r.pos == end.value)
  }

  lemma LeafEnds(p: bytes, pos: nat)
    ensures EndsAt(ReadLeaf(p, pos), AfterLeaf(p, pos))
  {
    hide Slot;
  }

  lemma OptLeafEnds(ty: Ty, off: nat, leaf: Ty, raw: bytes, p: bytes, pos: nat)
    requires IsLeaf(leaf) && |raw| == Size(ty) && off + PTR <= |raw| && pos <= |p|
    ensures var s := Step(ty, Ptr(off, leaf), raw, p, pos, map[]);
            EndsAt(s, AfterOptLeaf(p, pos, Slot(raw, off))) && (s.Got? ==> s.value.cache == map[])
  {
    hide Slot, ReadLeaf, AfterLeaf;
    LeafEnds(p, pos);
  }

  /** A run over one field. */
  lemma RunOfOne(ty: Ty, i: nat, raw: bytes, p: bytes, pos: nat, kids: seq<Kid>)
    requires |raw| == Size(ty) && i + 1 == |Fields(ty)| && pos <= |p|
    ensures var s := Step(ty, Fields(ty)[i], raw, p, pos, map[]);
            var r := Run(ty, i, raw, p, pos, map[], kids);
            (r.Got? <==> s.Got?) && (r.Got? ==> r.pos == s.pos && r.value.cache == s.value.cache)
  {
    hide Step, Fields;
  }

  lemma LocationEnds(i: nat, raw: bytes, p: bytes, pos: nat)
    requires 4 <= i < 7 && |raw| == PORT_SIZE && pos <= |p|
    ensures var s := Step(PortBody, Fields(PortBody)[i], raw, p, pos, map[]);
            EndsAt(s, AfterLocation(p, pos, Slot(raw, BodySlot(i)))) && (s.Got? ==> s.value.cache == map[])
  {
    hide Slot, Fields, AfterOptLeaf, Inner;
    BodyFields();
    var off := BodySlot(i) - LOC_DATA;
    var loc := Inner(raw, off, MedLoc);
    InnerSlot(raw, off);
    var h := ReadHeader(p, pos);
    assert h.Got? <==> AfterHeader(p, pos).Some?;
    if h.Got? {
      OptLeafEnds(MedLoc, LOC_DATA, Blob, loc, p, h.pos);
      RunOfOne(MedLoc, 0, loc, p, h.pos, []);
    }
  }

  lemma InnerSlot(raw: bytes, off: nat)
    requires off + MED_LOC_SIZE <= |raw|
    ensures Slot(Inner(raw, off, MedLoc), LOC_DATA) == Slot(raw, off + LOC_DATA)
  {
    hide Slot;
    SlotInside(raw, off, off + MED_LOC_SIZE, LOC_DATA);
  }

  lemma ChainSchemas()
    ensures Fields(Vlan) == [Ptr(TQE_NEXT, Vlan), Ptr(V_NAME, CString)]
    ensures Fields(Ppvid) == [Ptr(TQE_NEXT, Ppvid)]
    ensures Fields(Pi) == [Ptr(TQE_NEXT, Pi), Ptr(P_PI, Blob)]
  {
  }

  /** A struct of a chain in the message: its slots are words of the message. */
  lemma ChainPod(ty: Ty, p: bytes, pos: nat)
    requires ty in {Vlan, Ppvid, Pi}
    ensures var q := AlignUp(pos, 8);
            var body := q + HEADER + Size(ty);
            var r := ReadPod(p, pos, Size(ty));
            && (r.Got? <==> body <= |p| && Slot(p, q + PTR) >= HEADER + Size(ty))
            && (r.Got? ==> r.pos == body && Slot(r.value.1, TQE_NEXT) == Slot(p, q + HEADER))
            && (r.Got? && !ty.Ppvid? ==> Slot(r.value.1, V_NAME) == Slot(p, q + HEADER + V_NAME))
  {
    hide Slot;
    var q := AlignUp(pos, 8);
    var body := q + HEADER + Size(ty);
    if body <= |p| {
      SlotInside(p, q + HEADER, body, TQE_NEXT);
      if !ty.Ppvid? { SlotInside(p, q + HEADER, body, V_NAME); }
    }
  }

  lemma {:induction false} ChainEnds(ty: Ty, p: bytes, pos: nat)
    requires ty in {Vlan, Ppvid, Pi}
    ensures var w := Walk(ty, p, pos, map[]);
            EndsAt(w, AfterChain(ty, p, pos)) && (w.Got? ==> w.value.cache == map[])
    decreases if pos <= |p| then |p| - pos else 0
  {
    hide Slot, Fields, Run, Step, ReadPod, AfterOptLeaf;
    ChainSchemas();
    ChainPod(ty, p, pos);
    var r := ReadPod(p, pos, Size(ty));
    if r.Got? {
      if Slot(r.value.1, TQE_NEXT) != 0 { ChainEnds(ty, p, r.pos); }
      ChainRun(ty, r.value.1, p, r.pos);
    }
  }

  /** The fields of a chain's struct, given that the rest of the chain ends where the arithmetic says. */
  lemma ChainRun(ty: Ty, raw: bytes, p: bytes, pos: nat)
    requires ty in {Vlan, Ppvid, Pi} && |raw| == Size(ty) && pos <= |p|
    requires var w := Walk(ty, p, pos, map[]);
             Slot(raw, TQE_NEXT) != 0 ==> EndsAt(w, AfterChain(ty, p, pos)) && (w.Got? ==> w.value.cache == map[])
    ensures var r, link := Run(ty, 0, raw, p, pos, map[], []), AfterOptChain(ty, p, pos, Slot(raw, TQE_NEXT));
            && EndsAt(r, if link.None? || ty.Ppvid? then link else AfterOptLeaf(p, link.value, Slot(raw, V_NAME)))
            && (r.Got? ==> r.value.cache == map[])
  {
    hide Slot, Fields, Run, Step, Walk, AfterOptLeaf, AfterChain;
    ChainSchemas();
    LinkEnds(ty, raw, p, pos);
    var s := Step(ty, Fields(ty)[0], raw, p, pos, map[]);
    if s.Got? { TailEnds(ty, raw, p, s.pos, [] + [s.value.item]); }
    RunStart(ty, raw, p, pos);
  }

  lemma RunStart(ty: Ty, raw: bytes, p: bytes, pos: nat)
    requires |raw| == Size(ty) && |Fields(ty)| > 0 && pos <= |p|
    ensures var s := Step(ty, Fields(ty)[0], raw, p, pos, map[]);
            Run(ty, 0, raw, p, pos, map[], [])
            == if s.Bad? then Bad(s.reason, s.pos) else Run(ty, 1, raw, p, s.pos, s.value.cache, [] + [s.value.item])
  {
    hide Step, Fields;
  }

  lemma LinkEnds(ty: Ty, raw: bytes, p: bytes, pos: nat)
    requires ty in {Vlan, Ppvid, Pi} && |raw| == Size(ty) && pos <= |p|
    ensures var s, w := Step(ty, Ptr(TQE_NEXT, ty), raw, p, pos, map[]), Walk(ty, p, pos, map[]);
            if Slot(raw, TQE_NEXT) == 0 then s == Got(Seen(Absent, map[]), pos)
            else (s.Got? <==> w.Got?) && (s.Got? ==> s.pos == w.pos && s.value.cache == w.value.cache)
  {
    hide Slot, Walk;
  }

  /** After the link: a string for VLANs and PIs, nothing for PPVIDs. */
  lemma TailEnds(ty: Ty, raw: bytes, p: bytes, pos: nat, kids: seq<Kid>)
    requires ty in {Vlan, Ppvid, Pi} && |raw| == Size(ty) && pos <= |p|
    ensures |Fields(ty)| >= 1
    ensures var r := Run(ty, 1, raw, p, pos, map[], kids);
            && EndsAt(r, if ty.Ppvid? then Some(pos) else AfterOptLeaf(p, pos, Slot(raw, V_NAME)))
            && (r.Got? ==> r.value.cache == map[])
  {
    hide Slot, Fields, Step, AfterOptLeaf;
    ChainSchemas();
    if !ty.Ppvid? {
      OptLeafEnds(ty, V_NAME, if ty.Vlan? then CString else Blob, raw, p, pos);
      RunOfOne(ty, 1, raw, p, pos, kids);
    }
  }

  lemma FieldEnds(j: nat, raw: bytes, p: bytes, pos: nat)
    requires 4 <= j < 10 && |raw| == PORT_SIZE && pos <= |p| && FP_MIN <= |p|
    requires Slot(raw, BodySlot(j)) == LateSlot(p, j)
    ensures var s := Step(PortBody, Fields(PortBody)[j], raw, p, pos, map[]);
            EndsAt(s, AfterField(p, j, pos)) && (s.Got? ==> s.value.cache == map[])
  {
    hide Slot, Fields, LateSlot, AfterLocation, AfterChain, Walk;
    PortBodySchema();
    if j < 7 {
      LocationEnds(j, raw, p, pos);
    } else {
      ChainEnds(if j == 7 then Vlan else if j == 8 then Ppvid else Pi, p, pos);
    }
  }

  lemma {:induction false} FieldsEnd(j: nat, raw: bytes, p: bytes, pos: nat, kids: seq<Kid>)
    requires 4 <= j <= 10 && |raw| == PORT_SIZE && pos <= |p| && FP_MIN <= |p|
    requires forall i | 4 <= i < 10 :: Slot(raw, BodySlot(i)) == LateSlot(p, i)
    ensures |Fields(PortBody)| == 10
    ensures EndsAt(Run(PortBody, j, raw, p, pos, map[], kids), AfterFields(p, j, pos))
    decreases 10 - j
  {
    hide Slot, Fields, LateSlot, Step, AfterField;
    PortBodySchema();
    if j < 10 {
      FieldEnds(j, raw, p, pos);
      var s := Step(PortBody, Fields(PortBody)[j], raw, p, pos, map[]);
      if s.Got? { FieldsEnd(j + 1, raw, p, s.pos, kids + [s.value.item]); }
    }
  }

  /** The fields before the locations read nothing. */
  lemma EarlyFieldsQuiet(raw: bytes, p: bytes, pos: nat)
    requires |raw| == PORT_SIZE && pos <= |p| && forall j | 0 <= j < 4 :: Slot(raw, BodySlot(j)) == 0
    ensures |Fields(PortBody)| == 10
    ensures Run(PortBody, 0, raw, p, pos, map[], [])
         == Run(PortBody, 4, raw, p, pos, map[], [Absent, Absent, Absent, Absent])
  {
    hide Slot, Fields, Run;
    PortBodySchema();
    var k: seq<Kid> := [];
    QuietField(0, raw, p, pos, k);
    QuietField(1, raw, p, pos, k + [Absent]);
    QuietField(2, raw, p, pos, k + [Absent] + [Absent]);
    QuietField(3, raw, p, pos, k + [Absent] + [Absent] + [Absent]);
    assert k + [Absent] + [Absent] + [Absent] + [Absent] == [Absent, Absent, Absent, Absent];
  }

  lemma QuietField(i: nat, raw: bytes, p: bytes, pos: nat, kids: seq<Kid>)
    requires i < 4 && |raw| == PORT_SIZE && pos <= |p| && Slot(raw, BodySlot(i)) == 0
    ensures |Fields(PortBody)| == 10
    ensures Run(PortBody, i, raw, p, pos, map[], kids) == Run(PortBody, i + 1, raw, p, pos, map[], kids + [Absent])
  {
    hide Slot, Fields, Walk;
    PortBodySchema();
    assert Step(PortBody, Fields(PortBody)[i], raw, p, pos, map[]) == Got(Seen(Absent, map[]), pos);
  }

  // --------------------------------------------------------- the legacy attempt

  lemma LateSlotsAre(p: bytes)
    requires FP_MIN <= |p|
    ensures var lport := Inner(p[HEADER..HEADER + HARDWARE_SIZE], H_LPORT, LocalPort);
            && (forall j | 4 <= j < 10 :: Slot(lport, BodySlot(j)) == LateSlot(p, j))
            && (!EarlySlotSet(p) ==> Slot(lport, TQE_NEXT) == 0 && forall j | 0 <= j < 4 :: Slot(lport, BodySlot(j)) == 0)
  {
    hide Slot, Inner;
    var lport := Inner(p[HEADER..HEADER + HARDWARE_SIZE], H_LPORT, LocalPort);
    LegacySlots(p, TQE_NEXT);
    forall j | 0 <= j < 10 ensures Slot(lport, BodySlot(j)) == LegacyLocalSlot(p, BodySlot(j)) {
      LegacySlots(p, BodySlot(j));
    }
  }

  /** The local port, read where no early slot is set. */
  lemma LegacyLocalEnds(p: bytes)
    requires FP_MIN <= |p| && !EarlySlotSet(p)
    ensures EndsAt(LegacyLocalStep(p), AfterFields(p, 4, LEGACY_BODY))
  {
    hide Slot, Fields, Step, Run, Inner, LateSlot, EarlySlotSet;
    var lport := Inner(p[HEADER..HEADER + HARDWARE_SIZE], H_LPORT, LocalPort);
    LateSlotsAre(p);
    LegacyLocal(p);
    EarlyFieldsQuiet(lport, p, LEGACY_BODY);
    FieldsEnd(4, lport, p, LEGACY_BODY, [Absent, Absent, Absent, Absent]);
  }

  /** The alias chunk of an accepted legacy reading. */
  function LegacyAlias(p: bytes): Option<bytes>
    requires FP_MIN <= |p|
  {
    var end := AfterFields(p, 4, LEGACY_BODY);
    if LateSlot(p, 11) == 0 || end.None? || AlignUp(end.value, 8) + HEADER > |p| then None
    else Some(StripNul(p[AlignUp(end.value, 8) + HEADER..]))
  }

  /** What an accepted legacy reading without early slots and neighbors says. */
  function LegacyReading(p: bytes): InterfaceDetails<ChassisUse>
    requires FP_MIN <= |p|
  {
    InterfaceDetails(
      UntilNul(p[HEADER + H_IFNAME..HEADER + H_IFNAME + IFNAMSIZ]), LegacyAlias(p),
      p[HEADER + H_LLADDR..HEADER + H_LLADDR + ETHER_ADDR_LEN], None, [])
  }

  /** After a local port that could be read: no neighbors, then the alias. */
  lemma LegacyTail(p: bytes)
    requires HardwareAs(FlagsPrevious, p).Ok? && FP_MIN <= |p| && LateSlot(p, 10) == 0
    ensures var s, w := LegacyLocalStep(p), Walk(Hardware(Legacy), p, 0, map[]);
            if s.Bad? then w.Bad?
            else
              && EndsAt(w, AfterOptLeaf(p, s.pos, LateSlot(p, 11)))
              && (w.Got? ==>
                    && w.value.item.Node? && w.value.item.raw == p[HEADER..HEADER + HARDWARE_SIZE]
                    && w.value.item.kids == [s.value.item, Absent, AliasKid(p, s.pos)])
  {
    hide Slot, Fields, ReadPod, Step, HardwareOf, Wf, AfterOptLeaf, ReadLeaf, Inner;
    LegacyStart(p);
    HardwareSchema(Legacy);
    LegacySlots(p, H_RPORTS_FIRST);
    LegacySlots(p, H_IFALIAS);
    var ty, raw := Hardware(Legacy), p[HEADER..HEADER + HARDWARE_SIZE];
    var s := LegacyLocalStep(p);
    if s.Got? {
      assert [] + [s.value.item] == [s.value.item];
      AbsentPtr(ty, H_RPORTS_FIRST, NeighborPort, raw, p, s.pos, s.value.cache);
      assert [s.value.item] + [Absent] == [s.value.item, Absent];
      AliasStep(raw, p, s.pos, s.value.cache);
      var a := Step(ty, Ptr(H_IFALIAS, CString), raw, p, s.pos, s.value.cache);
      var k := [s.value.item, Absent];
      assert k + [AliasKid(p, s.pos)] == [s.value.item, Absent, AliasKid(p, s.pos)];
      if a.Got? { assert Run(ty, 3, raw, p, a.pos, s.value.cache, k + [AliasKid(p, s.pos)]).Got?; }
      assert Run(ty, 2, raw, p, s.pos, s.value.cache, k).Got? <==> a.Got?;
      assert Run(ty, 1, raw, p, s.pos, s.value.cache, [s.value.item]) == Run(ty, 2, raw, p, s.pos, s.value.cache, k);
    }
  }

  function AliasKid(p: bytes, pos: nat): Kid
    requires FP_MIN <= |p|
  {
    if LateSlot(p, 11) == 0 || ReadLeaf(p, pos).Bad? then Absent else Child(ReadLeaf(p, pos).value)
  }

  lemma AbsentPtr(ty: Ty, off: nat, t: Ty, raw: bytes, p: bytes, pos: nat, cache: Cache)
    requires |raw| == Size(ty) && off + PTR <= |raw| && pos <= |p| && Slot(raw, off) == 0
    ensures Step(ty, Ptr(off, t), raw, p, pos, cache) == Got(Seen(Absent, cache), pos)
  {
    hide Slot, Walk;
  }

  lemma AliasStep(raw: bytes, p: bytes, pos: nat, cache: Cache)
    requires FP_MIN <= |p| && |raw| == HARDWARE_SIZE && pos <= |p| && Slot(raw, H_IFALIAS) == LateSlot(p, 11)
    ensures var a := Step(Hardware(Legacy), Ptr(H_IFALIAS, CString), raw, p, pos, cache);
            EndsAt(a, AfterOptLeaf(p, pos, LateSlot(p, 11))) && (a.Got? ==> a.value == Seen(AliasKid(p, pos), cache))
  {
    hide Slot, ReadLeaf, AfterLeaf, LateSlot;
    LeafEnds(p, pos);
  }

  /** The legacy reading of a tree that chunk arithmetic found. */
  lemma LegacyView(p: bytes, t: Tree, q: nat)
    requires FP_MIN <= |p| && Wf(Hardware(Legacy), t) && t.Node? && t.raw == p[HEADER..HEADER + HARDWARE_SIZE]
    requires !EarlySlotSet(p) && |t.kids| == 3 && t.kids[1] == Absent && t.kids[2] == AliasKid(p, q)
    requires AfterFields(p, 4, LEGACY_BODY) == Some(q) && AfterOptLeaf(p, q, LateSlot(p, 11)) == Some(|p|)
    ensures HardwareOf(Legacy, t) == LegacyReading(p)
  {
    hide Slot, Fields, UntilNul, AfterFields, LateSlot, Inner, LocalFieldsOf, EarlySlotSet;
    NoLocalChassis(p, t);
    SliceOfSlice(p, HEADER, HEADER + HARDWARE_SIZE, H_IFNAME, H_IFNAME + IFNAMSIZ);
    SliceOfSlice(p, HEADER, HEADER + HARDWARE_SIZE, H_LLADDR, H_LLADDR + ETHER_ADDR_LEN);
    AliasText(p, q);
  }

  lemma AliasText(p: bytes, q: nat)
    requires FP_MIN <= |p| && AfterFields(p, 4, LEGACY_BODY) == Some(q)
    requires AfterOptLeaf(p, q, LateSlot(p, 11)) == Some(|p|)
    ensures TextOf(AliasKid(p, q)) == LegacyAlias(p)
  {
    hide Slot, AfterFields, LateSlot, StripNul;
    LeafEnds(p, q);
    var a := AlignUp(q, 8) + HEADER;
    if a <= |p| { assert p[a..|p|] == p[a..]; }
  }

  lemma NoLocalChassis(p: bytes, t: Tree)
    requires FP_MIN <= |p| && Wf(Hardware(Legacy), t) && t.Node? && t.raw == p[HEADER..HEADER + HARDWARE_SIZE]
    requires !EarlySlotSet(p)
    ensures LocalFieldsOf(Legacy, t).chassis == None
  {
    hide Slot, Fields, ChassisOf, TextOf, BytesOf, EarlySlotSet, LateSlot;
    PortSchema();
    PortBodySchema();
    HardwareSchema(Legacy);
    LateSlotsAre(p);
    assert BodySlot(0) == P_CHASSIS;
    KidAt(Hardware(Legacy), t, 0);
    var local, kids := Inner(t.raw, H_LPORT, LocalPort), t.kids[0].kids;
    assert KidWf(LocalPort, Fields(LocalPort)[1], local, kids[1]);
    assert KidsWf(PortBody, local, kids[1].kids);
    assert KidWf(PortBody, Fields(PortBody)[0], local, kids[1].kids[0]);
  }

  /**
   Exactly when the legacy layout accepts a newer-layout message with no early slot
   and no neighbors to read: when the chunks it finds, measured by the words it
   takes for their sizes, end where the message does. And what it then says.
   */
  lemma LegacyAcceptsExactly(p: bytes)
    requires HardwareAs(FlagsPrevious, p).Ok? && FP_MIN <= |p|
    requires !EarlySlotSet(p) && LateSlot(p, 10) == 0
    ensures HardwareAs(Legacy, p).Ok? <==> LegacyEnd(p) == Some(|p|)
    ensures HardwareAs(Legacy, p).Ok? ==> HardwareAs(Legacy, p) == Ok(LegacyReading(p))
  {
    hide Slot, Walk, Wf, HardwareOf, EarlySlotSet, AfterFields, AfterOptLeaf, LateSlot, LegacyReading, AliasKid;
    LegacyLocalEnds(p);
    LegacyTail(p);
    var s, w := LegacyLocalStep(p), Walk(Hardware(Legacy), p, 0, map[]);
    WalkWf(Hardware(Legacy), p, 0, map[]);
    if w.Got? && w.pos == |p| { LegacyView(p, w.value.item, s.pos); }
  }

  /** When such a message decodes to its own view, and what it decodes to otherwise. */
  lemma NewerLayoutExactly(p: bytes)
    requires HardwareAs(FlagsPrevious, p).Ok? && FP_MIN <= |p|
    requires !EarlySlotSet(p) && LateSlot(p, 10) == 0
    ensures LegacyEnd(p) != Some(|p|) ==> HardwareIn(p) == HardwareAs(FlagsPrevious, p)
    ensures LegacyEnd(p) == Some(|p|) ==> HardwareIn(p) == Ok(LegacyReading(p))
    ensures HardwareIn(p) == HardwareAs(FlagsPrevious, p)
       <==> (LegacyEnd(p) == Some(|p|) ==> LegacyReading(p) == HardwareAs(FlagsPrevious, p).value)
  {
    hide HardwareAs, LegacyEnd, LegacyReading, EarlySlotSet, LateSlot;
    LegacyAcceptsExactly(p);
  }

  // ------------------------------------------------------- one leaf slot at a time

  predicate OnlyLateSlot(p: bytes, j: nat)
    requires FP_MIN <= |p| && 4 <= j <= 12
  {
    !EarlySlotSet(p) && forall i | 4 <= i < 12 :: LateSlot(p, i) != 0 <==> i == j
  }

  /** Where the legacy attempt is when it comes to slot `j`, nothing before it being set. */
  function Before(j: nat): nat
    requires 4 <= j <= 12
  {
    LEGACY_BODY + HEADER * if j < 7 then j - 4 else 3
  }

  lemma {:induction false} QuietFields(p: bytes, j: nat, k: nat)
    requires FP_MIN <= |p| && 4 <= j <= k <= 10
    requires forall i | j <= i < k :: LateSlot(p, i) == 0
    ensures AfterFields(p, j, Before(j)) == AfterFields(p, k, Before(k))
    decreases k - j
  {
    hide LateSlot, AfterField;
    if j < k {
      QuietOne(p, j);
      QuietFields(p, j + 1, k);
    }
  }

  lemma QuietOne(p: bytes, j: nat)
    requires FP_MIN <= |p| && 4 <= j < 10 && LateSlot(p, j) == 0
    ensures AfterField(p, j, Before(j)) == Some(Before(j + 1))
  {
    hide LateSlot, AfterChain;
  }

  /** Location 0 alone: its leaf is read at 680, its size at 688, and two markers follow. */
  lemma OnlyFirstLocation(p: bytes)
    requires FP_MIN <= |p| && OnlyLateSlot(p, 4)
    ensures LegacyEnd(p) == Some(|p|)
       <==> HEADER <= Slot(p, FIRST_CHUNK + PTR)
            && AlignUp(FIRST_CHUNK + Slot(p, FIRST_CHUNK + PTR), 8) + 2 * HEADER == |p|
  {
    hide Slot, LateSlot, EarlySlotSet;
    var e := AfterLeaf(p, FIRST_CHUNK);
    assert AfterField(p, 4, LEGACY_BODY) == e;
    if e.Some? {
      LastMarkers(p, 5, e.value);
      AlignTwice(e.value);
    }
  }

  /** Location 1 alone: read at 696, its size at 704, and one marker follows. */
  lemma OnlySecondLocation(p: bytes)
    requires FP_MIN <= |p| && OnlyLateSlot(p, 5)
    ensures LegacyEnd(p) == Some(|p|)
       <==> HEADER <= Slot(p, SECOND_CHUNK + PTR)
            && AlignUp(SECOND_CHUNK + Slot(p, SECOND_CHUNK + PTR), 8) + HEADER == |p|
  {
    hide Slot, LateSlot, EarlySlotSet, AfterFields, AfterField;
    QuietFields(p, 4, 5);
    var e := AfterLeaf(p, SECOND_CHUNK);
    LocationAlone(p, 5);
    if e.Some? { LastMarkers(p, 6, e.value); }
  }

  /** Location 2 alone, or the alias alone: read at 712, its size at 720, to the message's end. */
  lemma OnlyLastLeaf(p: bytes, j: nat)
    requires FP_MIN <= |p| && (j == 6 || j == 11) && OnlyLateSlot(p, j)
    ensures LegacyEnd(p) == Some(|p|)
       <==> |p| >= LATER_CHUNK + HEADER && HEADER <= Slot(p, LATER_CHUNK + PTR) == |p| - LATER_CHUNK
  {
    hide Slot, LateSlot, EarlySlotSet, AfterFields, AfterField;
    QuietFields(p, 4, if j == 6 then 6 else 10);
    NoFieldsLeft(p);
    if j == 6 {
      var e := AfterLeaf(p, LATER_CHUNK);
      LocationAlone(p, 6);
      if e.Some? { LastMarkers(p, 7, e.value); }
    }
  }

  /** A set location slot: its marker, then its leaf. */
  lemma LocationAlone(p: bytes, j: nat)
    requires FP_MIN <= |p| && 4 <= j < 7 && LateSlot(p, j) != 0
    ensures var e := AfterLeaf(p, ChunkAt(j));
            AfterFields(p, j, Before(j)) == if e.None? then None else AfterFields(p, j + 1, e.value)
  {
    hide LateSlot, AfterLeaf;
    assert AfterField(p, j, Before(j)) == AfterLeaf(p, ChunkAt(j));
  }

  lemma NoFieldsLeft(p: bytes)
    requires FP_MIN <= |p|
    ensures AfterFields(p, 10, LATER_CHUNK) == Some(LATER_CHUNK)
  {
  }

  /** From slot `j` on nothing is set: only the remaining markers are read. */
  lemma LastMarkers(p: bytes, j: nat, pos: nat)
    requires FP_MIN <= |p| && 5 <= j <= 7 && pos <= |p|
    requires forall i | j <= i < 10 :: LateSlot(p, i) == 0
    ensures AfterFields(p, j, pos)
         == if j == 7 then Some(pos)
            else if j == 6 then AfterHeader(p, pos)
            else match AfterHeader(p, pos) case None => None case Some(q) => AfterHeader(p, q)
  {
    hide LateSlot, AfterHeader;
    NoChains(p, pos);
    var h := AfterHeader(p, pos);
    if j < 7 && h.Some? {
      NoChains(p, h.value);
      if j == 5 && AfterHeader(p, h.value).Some? { NoChains(p, AfterHeader(p, h.value).value); }
    }
  }

  lemma NoChains(p: bytes, pos: nat)
    requires FP_MIN <= |p| && pos <= |p| && forall i | 7 <= i < 10 :: LateSlot(p, i) == 0
    ensures AfterFields(p, 7, pos) == Some(pos)
  {
    hide LateSlot;
    assert AfterFields(p, 10, pos) == Some(pos);
    assert AfterFields(p, 9, pos) == Some(pos);
    assert AfterFields(p, 8, pos) == Some(pos);
  }

  /** Headers keep alignment. */
  lemma AlignTwice(pos: nat)
    ensures AlignUp(AlignUp(pos, 8) + HEADER, 8) == AlignUp(pos, 8) + HEADER
  {
    AlignUpIsLeast(pos, 8, 0);
    AlignWord(AlignUp(pos, 8), HEADER);
  }

  // ------------------------------------------------------------ certain rejection

  /** The first late slot that is set, 12 if none is. */
  function FirstLate(p: bytes, j: nat): (k: nat)
    requires FP_MIN <= |p| && 4 <= j <= 12
    ensures j <= k <= 12 && forall i | j <= i < k :: LateSlot(p, i) == 0
    ensures k < 12 ==> LateSlot(p, k) != 0
    decreases 12 - j
  {
    if j == 12 || LateSlot(p, j) != 0 then j else FirstLate(p, j + 1)
  }

  /** What slot `j` leads to. */
  function Target(j: nat): Ty
    requires 4 <= j < 12
  {
    if j < 7 then Blob
    else if j == 7 then Vlan
    else if j == 8 then Ppvid
    else if j == 9 then Pi
    else if j == 10 then NeighborPort
    else CString
  }

  /** Where the chunk behind slot `j` would be, nothing before it being set. */
  function ChunkAt(j: nat): nat
    requires 4 <= j < 12
  {
    Before(j) + if j < 7 then HEADER else 0
  }

  /** The first set slot leads to no header, or to a size too small for what it should be. */
  predicate FirstLateStops(p: bytes)
    requires FP_MIN <= |p|
  {
    var j := FirstLate(p, 4);
    && !EarlySlotSet(p) && j < 12
    && (ChunkAt(j) + HEADER > |p| || Slot(p, ChunkAt(j) + PTR) < HEADER + Size(Target(j)))
  }

  lemma FirstLateStopsLegacy(p: bytes)
    requires HardwareAs(FlagsPrevious, p).Ok? && FP_MIN <= |p| && FirstLateStops(p)
    ensures HardwareAs(Legacy, p).Err?
  {
    hide Slot, LateSlot, EarlySlotSet, HardwareAs, AfterChain;
    var j := FirstLate(p, 4);
    QuietFields(p, 4, if j < 10 then j else 10);
    assert j < 10 ==> AfterField(p, j, Before(j)) == None by { if j < 10 { FieldStops(p, j); } }
    if j == 10 {
      NeighborsStop(p);
    } else if j == 11 {
      assert AfterOptLeaf(p, LATER_CHUNK, LateSlot(p, 11)) == None;
      LegacyAcceptsExactly(p);
    } else {
      LegacyLocalEnds(p);
      LegacyFails(p);
    }
  }

  lemma FieldStops(p: bytes, j: nat)
    requires FP_MIN <= |p| && 4 <= j < 10 && LateSlot(p, j) != 0
    requires ChunkAt(j) + HEADER > |p| || Slot(p, ChunkAt(j) + PTR) < HEADER + Size(Target(j))
    ensures AfterField(p, j, Before(j)) == None
  {
    hide Slot, LateSlot;
  }

  lemma NeighborsStop(p: bytes)
    requires HardwareAs(FlagsPrevious, p).Ok? && FP_MIN <= |p| && !EarlySlotSet(p) && LateSlot(p, 10) != 0
    requires AfterFields(p, 4, LEGACY_BODY) == Some(LATER_CHUNK)
    requires LATER_CHUNK + HEADER > |p| || Slot(p, LATER_CHUNK + PTR) < HEADER + PORT_SIZE
    ensures HardwareAs(Legacy, p).Err?
  {
    hide Slot, Fields, Step, ReadPod, HardwareOf, Wf, EarlySlotSet, AfterFields;
    LegacyStart(p);
    HardwareSchema(Legacy);
    LegacySlots(p, H_RPORTS_FIRST);
    LegacyLocalEnds(p);
    WalkWf(Hardware(Legacy), p, 0, map[]);
    var ty, raw := Hardware(Legacy), p[HEADER..HEADER + HARDWARE_SIZE];
    var s := LegacyLocalStep(p);
    NeighborStepStops(raw, p, s.value.cache);
    assert Run(ty, 1, raw, p, s.pos, s.value.cache, [] + [s.value.item]).Bad?;
  }

  lemma NeighborStepStops(raw: bytes, p: bytes, cache: Cache)
    requires |raw| == HARDWARE_SIZE && LATER_CHUNK <= |p| && Slot(raw, H_RPORTS_FIRST) != 0
    requires LATER_CHUNK + HEADER > |p| || Slot(p, LATER_CHUNK + PTR) < HEADER + PORT_SIZE
    ensures Step(Hardware(Legacy), Ptr(H_RPORTS_FIRST, NeighborPort), raw, p, LATER_CHUNK, cache).Bad?
  {
    hide Slot, Run;
  }

  /** No legacy slot is set at all. */
  predicate AllSlotsZero(p: bytes)
    requires FP_MIN <= |p|
  {
    OnlyLateSlot(p, 12)
  }

  /**
   If no slot is set, the legacy walk consumes exactly 712 bytes; the newer layout's
   messages have at least 720, so the exhaustion check rejects the legacy reading.
   */
  lemma QuietMessageReachesFallback(p: bytes)
    requires HardwareAs(FlagsPrevious, p).Ok?
    requires FP_MIN <= |p| && AllSlotsZero(p)
    ensures Walk(Hardware(Legacy), p, 0, map[]).Got? && Walk(Hardware(Legacy), p, 0, map[]).pos == LATER_CHUNK
    ensures HardwareAs(Legacy, p) == Err(Protocol(LayoutMismatch))
    ensures HardwareIn(p) == HardwareAs(FlagsPrevious, p)
  {
    hide Slot, LateSlot, EarlySlotSet, Walk, HardwareOf, Wf;
    QuietFields(p, 4, 10);
    LegacyLocalEnds(p);
    LegacyTail(p);
  }

  /**
   The classes of messages that are certain to decode to what the newer layout says:
   an early slot is set and the third chunk's id is small; no slot is set; or the
   first set slot leads nowhere.
   */
  lemma NewerLayoutDecodes(p: bytes)
    requires HardwareAs(FlagsPrevious, p).Ok? && FP_MIN <= |p|
    requires (EarlySlotSet(p) && Slot(p, THIRD_CHUNK) < HEADER) || AllSlotsZero(p) || FirstLateStops(p)
    ensures HardwareAs(Legacy, p).Err? && HardwareIn(p) == HardwareAs(FlagsPrevious, p)
  {
    hide Slot, HardwareAs, AllSlotsZero, EarlySlotSet, FirstLateStops;
    if FirstLateStops(p) {
      FirstLateStopsLegacy(p);
    } else if AllSlotsZero(p) {
      QuietMessageReachesFallback(p);
    } else {
      EarlySlotReachesFallback(p);
    }
  }

  /** Small words at the four places a chunk's size would be read from settle every case. */
  lemma SmallWordsDecode(p: bytes)
    requires HardwareAs(FlagsPrevious, p).Ok? && FP_MIN <= |p|
    requires Slot(p, THIRD_CHUNK) < HEADER && Slot(p, FIRST_CHUNK + PTR) < HEADER && Slot(p, SECOND_CHUNK + PTR) < HEADER
    requires |p| >= LATER_CHUNK + HEADER ==> Slot(p, LATER_CHUNK + PTR) < HEADER
    ensures HardwareAs(Legacy, p).Err? && HardwareIn(p) == HardwareAs(FlagsPrevious, p)
  {
    hide Slot, HardwareAs, EarlySlotSet, LateSlot;
    var j := FirstLate(p, 4);
    NewerLayoutDecodes(p);
  }
}
