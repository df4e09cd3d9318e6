/**
 The reference ids of a message in wire order, and what sequential numbering puts
 at the third chunk of a hardware message.
 */
module Numbering {
  import opened Bytes
  import opened Errors
  import opened Raw
  import opened Marshal
  import opened Emitter
  import opened Payload
  import opened View
  import opened Schemas
  import opened Bounds
  import opened Disambiguation
  import opened LateSlots

  /** The `orig` of every chunk a tree puts on the wire, in order. */
  function Origs(ty: Ty, t: Tree, done: set<nat>): (r: seq<nat>)
    requires Wf(ty, t)
    ensures |r| > 0 && r[0] == t.orig
    decreases t, 0
  {
    if IsLeaf(ty) then [t.orig]
    else [t.orig] + OrigsRun(ty, 0, t.raw, t.kids, HEADER + |t.raw|, done)
  }

  function OrigsRun(ty: Ty, i: nat, raw: bytes, kids: seq<Kid>, len: nat, done: set<nat>): seq<nat>
    requires |raw| == Size(ty) && KidsWf(ty, raw, kids) && i <= |kids|
    decreases kids, |kids| - i
  {
    if i == |kids| then []
    else
      var (b, d) := EmitKid(ty, Fields(ty)[i], raw, kids[i], len, done);
      OrigsKid(ty, Fields(ty)[i], raw, kids[i], len, done) + OrigsRun(ty, i + 1, raw, kids, len + |b|, d)
  }

  function OrigsKid(ty: Ty, f: Field, raw: bytes, kid: Kid, len: nat, done: set<nat>): seq<nat>
    requires |raw| == Size(ty) && Fits(f, ty) && KidWf(ty, f, raw, kid)
    decreases kid, 0
  {
    match f
    case Ptr(_, t) => if kid.Absent? then [] else Origs(t, kid.tree, done)
    case Shared(off) => if kid.Absent? || Slot(raw, off) in done then [] else Origs(ChassisBox, kid.tree, done)
    case Sub(off, t) => [kid.orig] + OrigsRun(t, 0, Inner(raw, off, t), kid.kids, HEADER, done)
    case Inline(t) => OrigsRun(t, 0, raw, kid.kids, len, done)
    case Check(_, _, _) => []
  }

  /** Ids are handed out 1, 2, 3, ... in the order chunks are written. */
  predicate Sequential(ty: Ty, t: Tree)
    requires Wf(ty, t)
  {
    var o := Origs(ty, t, {});
    forall k | 0 <= k < |o| :: o[k] == k + 1
  }

  /** Appended to a chunk of length `len`, the bytes begin with a header whose id is `o`. */
  predicate BeginsWith(b: bytes, len: nat, o: nat) {
    |Pad(len)| + PTR <= |b| && b[|Pad(len)|..|Pad(len)| + PTR] == Word(o)
  }

  lemma {:induction false} RunBegins(ty: Ty, i: nat, raw: bytes, kids: seq<Kid>, len: nat, done: set<nat>)
    requires |raw| == Size(ty) && KidsWf(ty, raw, kids) && i <= |kids|
    ensures var o := OrigsRun(ty, i, raw, kids, len, done);
            var b := EmitRun(ty, i, raw, kids, len, done).0;
            if o == [] then b == [] else BeginsWith(b, len, o[0])
    decreases kids, |kids| - i
  {
    hide Fields, KidsWf, KidWf, EmitKid, OrigsKid, BeginsWith, EmitRun, OrigsRun;
    if i == |kids| {
      NothingLeft(ty, raw, kids, len, done);
    } else {
      RunHead(ty, i, raw, kids, len, done);
      var f := Fields(ty)[i];
      var (b, d) := EmitKid(ty, f, raw, kids[i], len, done);
      KidBegins(ty, f, raw, kids[i], len, done);
      RunBegins(ty, i + 1, raw, kids, len + |b|, d);
      var o := OrigsKid(ty, f, raw, kids[i], len, done);
      var rest := EmitRun(ty, i + 1, raw, kids, len + |b|, d).0;
      if o != [] { BeginsAppend(b, rest, len, o[0]); } else { assert b + rest == rest; }
    }
  }

  lemma NothingLeft(ty: Ty, raw: bytes, kids: seq<Kid>, len: nat, done: set<nat>)
    requires |raw| == Size(ty) && KidsWf(ty, raw, kids)
    ensures EmitRun(ty, |kids|, raw, kids, len, done) == ([], done)
    ensures OrigsRun(ty, |kids|, raw, kids, len, done) == []
  {
    hide KidsWf;
  }

  /** A run is its first field, then the rest. */
  lemma RunHead(ty: Ty, i: nat, raw: bytes, kids: seq<Kid>, len: nat, done: set<nat>)
    requires |raw| == Size(ty) && KidsWf(ty, raw, kids) && i < |kids|
    ensures |kids| == |Fields(ty)| && KidWf(ty, Fields(ty)[i], raw, kids[i])
    ensures var (b, d) := EmitKid(ty, Fields(ty)[i], raw, kids[i], len, done);
            var (rest, d') := EmitRun(ty, i + 1, raw, kids, len + |b|, d);
            && EmitRun(ty, i, raw, kids, len, done) == (b + rest, d')
            && OrigsRun(ty, i, raw, kids, len, done)
               == OrigsKid(ty, Fields(ty)[i], raw, kids[i], len, done) + OrigsRun(ty, i + 1, raw, kids, len + |b|, d)
  {
    hide Fields, KidWf, EmitKid, OrigsKid;
  }

  lemma BeginsAppend(b: bytes, rest: bytes, len: nat, o: nat)
    requires BeginsWith(b, len, o)
    ensures BeginsWith(b + rest, len, o)
  {
    hide ToLe, AlignUp;
    assert (b + rest)[|Pad(len)|..|Pad(len)| + PTR] == b[|Pad(len)|..|Pad(len)| + PTR];
  }

  lemma {:induction false} KidBegins(ty: Ty, f: Field, raw: bytes, kid: Kid, len: nat, done: set<nat>)
    requires |raw| == Size(ty) && Fits(f, ty) && KidWf(ty, f, raw, kid)
    ensures var o := OrigsKid(ty, f, raw, kid, len, done);
            var b := EmitKid(ty, f, raw, kid, len, done).0;
            if o == [] then b == [] else BeginsWith(b, len, o[0])
    decreases kid, 0
  {
    hide Fields, KidsWf, Wf, EmitRun, OrigsRun, Slot, Inner, Emit, Origs, BeginsWith;
    match f
    case Ptr(_, t) => if kid.Child? { TreeBegins(t, kid.tree, len, done); }
    case Shared(off) => if kid.Child? { TreeBegins(ChassisBox, kid.tree, len, done); }
    case Sub(off, t) =>
      var b := EmitRun(t, 0, Inner(raw, off, t), kid.kids, HEADER, done).0;
      HeadBegins(len, kid.orig, Word(HEADER + |b|), b);
    case Inline(t) => RunBegins(t, 0, raw, kid.kids, len, done);
    case Check(_, _, _) =>
  }

  lemma HeadBegins(len: nat, o: nat, size: bytes, rest: bytes)
    requires |size| == PTR
    ensures BeginsWith(Pad(len) + (Word(o) + size + rest), len, o)
  {
    hide ToLe, AlignUp;
    var b := Pad(len) + (Word(o) + size + rest);
    assert b[|Pad(len)|..] == Word(o) + size + rest;
    assert b[|Pad(len)|..|Pad(len)| + PTR] == b[|Pad(len)|..][..PTR];
  }

  lemma TreeBegins(ty: Ty, t: Tree, len: nat, done: set<nat>)
    requires Wf(ty, t)
    ensures BeginsWith(Pad(len) + Emit(ty, t, done).0, len, t.orig)
  {
    hide Wf, Emit, ToLe, AlignUp, BeginsWith;
    EmitHead(ty, t, done);
    var b := Emit(ty, t, done).0;
    assert b == Word(t.orig) + Word(|b|) + b[HEADER..];
    HeadBegins(len, t.orig, Word(|b|), b[HEADER..]);
  }

  // ------------------------------------------------------------ the third chunk

  /** A port body always puts its location markers on the wire. */
  lemma {:induction false} BodyHasOrigs(i: nat, raw: bytes, kids: seq<Kid>, len: nat, done: set<nat>)
    requires |raw| == PORT_SIZE && KidsWf(PortBody, raw, kids) && i <= 4
    ensures OrigsRun(PortBody, i, raw, kids, len, done) != []
    decreases 4 - i
  {
    hide Fields, KidWf, EmitKid;
    PortMarkers();
    if i < 4 {
      var (b, d) := EmitKid(PortBody, Fields(PortBody)[i], raw, kids[i], len, done);
      BodyHasOrigs(i + 1, raw, kids, len + |b|, d);
    }
  }

  /** What follows the local port's marker: the first chunk of its body. */
  lemma LocalBegins(raw: bytes, kids: seq<Kid>)
    requires |raw| == PORT_SIZE && KidsWf(LocalPort, raw, kids)
    ensures var o := OrigsRun(LocalPort, 0, raw, kids, HEADER, {});
            o != [] && BeginsWith(EmitRun(LocalPort, 0, raw, kids, HEADER, {}).0, HEADER, o[0])
  {
    hide Fields, BeginsWith, Slot;
    PortSchema();
    assert KidWf(LocalPort, Fields(LocalPort)[1], raw, kids[1]);
    BodyHasOrigs(0, raw, kids[1].kids, HEADER, {});
    assert EmitKid(LocalPort, Fields(LocalPort)[0], raw, kids[0], HEADER, {}) == ([], {});
    assert OrigsKid(LocalPort, Fields(LocalPort)[0], raw, kids[0], HEADER, {}) == [];
    assert OrigsKid(LocalPort, Fields(LocalPort)[1], raw, kids[1], HEADER, {}) != [];
    assert OrigsRun(LocalPort, 1, raw, kids, HEADER, {}) != [];
    RunBegins(LocalPort, 0, raw, kids, HEADER, {});
  }

  /** The third chunk of a newer-layout message is at offset 672: the first in the local port's body. */
  lemma ThirdChunkIs(t: Tree)
    requires Wf(Hardware(FlagsPrevious), t)
    ensures t.Node? && |t.raw| == FP_HARDWARE_SIZE && |t.kids| == 3 && t.kids[0].Marked?
    ensures var local := Inner(t.raw, FP_LPORT, LocalPort); KidsWf(LocalPort, local, t.kids[0].kids)
    ensures var m, all := Message(Hardware(FlagsPrevious), t), Origs(Hardware(FlagsPrevious), t, {});
            var o := OrigsRun(LocalPort, 0, Inner(t.raw, FP_LPORT, LocalPort), t.kids[0].kids, HEADER, {});
            && o != [] && |all| > 2 && all[2] == o[0]
            && THIRD_CHUNK + PTR <= |m| && (o[0] < WORD_LIMIT ==> Slot(m, THIRD_CHUNK) == o[0])
  {
    hide Fields, Slot, OrigsRun, EmitRun, ToLe, BeginsWith;
    var ty := Hardware(FlagsPrevious);
    HardwareSchema(FlagsPrevious);
    KidAt(ty, t, 0);
    assert KidsWf(ty, t.raw, t.kids);
    var local, kid := Inner(t.raw, FP_LPORT, LocalPort), t.kids[0];
    LocalBegins(local, kid.kids);
    var o := OrigsRun(LocalPort, 0, local, kid.kids, HEADER, {});
    var b := EmitRun(LocalPort, 0, local, kid.kids, HEADER, {}).0;
    var rest, orest := FirstField(t);
    var all := Origs(ty, t, {});
    assert all[0] == t.orig && all[1] == kid.orig && all[2] == o[0];
    ThirdWord(t, kid.orig, b, rest, o[0]);
    var m := Message(ty, t);
    if o[0] < WORD_LIMIT { SlotOfWord(m, THIRD_CHUNK, o[0]); }
  }

  /** With sequential ids the third chunk has id 3. */
  lemma ThirdChunk(t: Tree)
    requires Wf(Hardware(FlagsPrevious), t) && Sequential(Hardware(FlagsPrevious), t)
    ensures var m := Message(Hardware(FlagsPrevious), t);
            THIRD_CHUNK + PTR <= |m| && Slot(m, THIRD_CHUNK) == 3
  {
    hide Fields, Slot, OrigsRun, Message, Origs, Wf;
    ThirdChunkIs(t);
  }

  /** An absent field writes nothing. */
  lemma SkipAbsent(ty: Ty, i: nat, raw: bytes, kids: seq<Kid>, len: nat, done: set<nat>)
    requires |raw| == Size(ty) && KidsWf(ty, raw, kids) && i < |kids| && kids[i] == Absent
    ensures EmitRun(ty, i, raw, kids, len, done) == EmitRun(ty, i + 1, raw, kids, len, done)
    ensures OrigsRun(ty, i, raw, kids, len, done) == OrigsRun(ty, i + 1, raw, kids, len, done)
  {
    hide Fields, Slot, KidsWf, KidWf, EmitKid, OrigsKid;
    AbsentKid(ty, i, raw, kids);
    AbsentWrites(ty, Fields(ty)[i], raw, len, done);
    var (b, d) := EmitRun(ty, i + 1, raw, kids, len, done);
    assert [] + b == b;
    var o := OrigsRun(ty, i + 1, raw, kids, len, done);
    assert [] + o == o;
  }

  lemma AbsentWrites(ty: Ty, f: Field, raw: bytes, len: nat, done: set<nat>)
    requires |raw| == Size(ty) && Fits(f, ty) && KidWf(ty, f, raw, Absent)
    ensures EmitKid(ty, f, raw, Absent, len, done) == ([], done)
    ensures OrigsKid(ty, f, raw, Absent, len, done) == []
  {
    hide Fields, Slot;
  }

  lemma AbsentKid(ty: Ty, i: nat, raw: bytes, kids: seq<Kid>)
    requires |raw| == Size(ty) && KidsWf(ty, raw, kids) && i < |kids| && kids[i] == Absent
    ensures |kids| == |Fields(ty)| && KidWf(ty, Fields(ty)[i], raw, Absent)
  {
    hide Fields;
  }

  lemma {:induction false} AllAbsent(ty: Ty, i: nat, raw: bytes, kids: seq<Kid>, len: nat, done: set<nat>)
    requires |raw| == Size(ty) && KidsWf(ty, raw, kids) && i <= |kids|
    requires forall j | i <= j < |kids| :: kids[j] == Absent
    ensures EmitRun(ty, i, raw, kids, len, done) == ([], done)
    ensures OrigsRun(ty, i, raw, kids, len, done) == []
    decreases |kids| - i
  {
    hide Fields, KidsWf, EmitKid, OrigsKid;
    if i < |kids| {
      SkipAbsent(ty, i, raw, kids, len, done);
      AllAbsent(ty, i + 1, raw, kids, len, done);
    }
  }

  /** A hardware message opens with its struct, the local port's marker, and the local port's chunks. */
  lemma FirstField(t: Tree) returns (rest: bytes, orest: seq<nat>)
    requires Wf(Hardware(FlagsPrevious), t)
    ensures t.Node? && |t.raw| == FP_HARDWARE_SIZE && |t.kids| == 3 && t.kids[0].Marked?
    ensures KidsWf(LocalPort, Inner(t.raw, FP_LPORT, LocalPort), t.kids[0].kids)
    ensures var local, kid := Inner(t.raw, FP_LPORT, LocalPort), t.kids[0];
            var b := EmitRun(LocalPort, 0, local, kid.kids, HEADER, {}).0;
            var o := OrigsRun(LocalPort, 0, local, kid.kids, HEADER, {});
            && Message(Hardware(FlagsPrevious), t)
               == Word(t.orig) + Word(|Message(Hardware(FlagsPrevious), t)|) + t.raw
                  + (Word(kid.orig) + Word(HEADER + |b|) + b + rest)
            && Origs(Hardware(FlagsPrevious), t, {}) == [t.orig] + (([kid.orig] + o) + orest)
    ensures t.kids[1] == Absent && t.kids[2] == Absent ==> rest == [] && orest == []
    ensures var local := Inner(t.raw, FP_LPORT, LocalPort);
            var b := EmitRun(LocalPort, 0, local, t.kids[0].kids, HEADER, {}).0;
            if orest == [] then rest == []
            else BeginsWith(rest, HEADER + FP_HARDWARE_SIZE + HEADER + |b|, orest[0])
  {
    hide Fields, Slot, ToLe, AlignUp, BeginsWith, EmitRun, OrigsRun;
    var ty := Hardware(FlagsPrevious);
    HardwareSchema(FlagsPrevious);
    KidAt(ty, t, 0);
    assert KidsWf(ty, t.raw, t.kids);
    var len := HEADER + |t.raw|;
    AlignWord(656, 0);
    assert Pad(len) == [];
    var local, kid := Inner(t.raw, FP_LPORT, LocalPort), t.kids[0];
    var (b, d) := EmitRun(LocalPort, 0, local, kid.kids, HEADER, {});
    var mark := Word(kid.orig) + Word(HEADER + |b|) + b;
    assert [] + mark == mark;
    assert EmitKid(ty, Fields(ty)[0], t.raw, kid, len, {}) == (mark, d);
    rest := EmitRun(ty, 1, t.raw, t.kids, len + |mark|, d).0;
    RunHead(ty, 0, t.raw, t.kids, len, {});
    assert EmitRun(ty, 0, t.raw, t.kids, len, {}).0 == mark + rest;
    var o := OrigsRun(LocalPort, 0, local, kid.kids, HEADER, {});
    orest := OrigsRun(ty, 1, t.raw, t.kids, len + |mark|, d);
    assert OrigsRun(ty, 0, t.raw, t.kids, len, {}) == ([kid.orig] + o) + orest;
    RestOfMessage(t, len + |mark|, d);
  }

  /** Neighbors and alias, behind a chunk of length `len`. */
  lemma RestOfMessage(t: Tree, len: nat, d: set<nat>)
    requires t.Node? && |t.raw| == FP_HARDWARE_SIZE && |t.kids| == 3 && KidsWf(Hardware(FlagsPrevious), t.raw, t.kids)
    ensures var rest := EmitRun(Hardware(FlagsPrevious), 1, t.raw, t.kids, len, d).0;
            var orest := OrigsRun(Hardware(FlagsPrevious), 1, t.raw, t.kids, len, d);
            && (if orest == [] then rest == [] else BeginsWith(rest, len, orest[0]))
            && (t.kids[1] == Absent && t.kids[2] == Absent ==> rest == [] && orest == [])
  {
    hide Fields, KidsWf, EmitRun, OrigsRun, BeginsWith;
    var ty := Hardware(FlagsPrevious);
    RunBegins(ty, 1, t.raw, t.kids, len, d);
    if t.kids[1] == Absent && t.kids[2] == Absent { AllAbsent(ty, 1, t.raw, t.kids, len, d); }
  }

  lemma ThirdWord(t: Tree, mark: nat, b: bytes, rest: bytes, o: nat)
    requires t.Node? && |t.raw| == FP_HARDWARE_SIZE && Wf(Hardware(FlagsPrevious), t)
    requires BeginsWith(b, HEADER, o)
    requires Message(Hardware(FlagsPrevious), t)
          == Word(t.orig) + Word(|Message(Hardware(FlagsPrevious), t)|) + t.raw
             + (Word(mark) + Word(HEADER + |b|) + b + rest)
    ensures var m := Message(Hardware(FlagsPrevious), t);
            THIRD_CHUNK + PTR <= |m| && m[THIRD_CHUNK..THIRD_CHUNK + PTR] == Word(o)
  {
    hide Message, ToLe, AlignUp, Wf;
    var m := Message(Hardware(FlagsPrevious), t);
    AlignWord(16, 0);
    var front := Word(t.orig) + Word(|m|) + t.raw + Word(mark) + Word(HEADER + |b|);
    assert m == front + (b + rest);
    assert m[THIRD_CHUNK..THIRD_CHUNK + PTR] == b[..PTR];
  }

  /** A location without data writes its bare marker header. */
  lemma BareMarker(i: nat, raw: bytes, o: nat, kids: seq<Kid>, len: nat, done: set<nat>)
    requires |raw| == PORT_SIZE && KidsWf(PortBody, raw, kids) && 4 <= i < 7 && len % 8 == 0
    requires |kids| == 10 && kids[i] == Marked(o, [Absent])
    ensures var (b, d) := EmitRun(PortBody, i + 1, raw, kids, len + HEADER, done);
            EmitRun(PortBody, i, raw, kids, len, done) == (Word(o) + Word(HEADER) + b, d)
    ensures OrigsRun(PortBody, i, raw, kids, len, done) == [o] + OrigsRun(PortBody, i + 1, raw, kids, len + HEADER, done)
  {
    hide Fields, Slot, Inner, ToLe;
    BodyFields();
    var off := BodySlot(i) - LOC_DATA;
    var loc := Inner(raw, off, MedLoc);
    assert KidWf(PortBody, Fields(PortBody)[i], raw, kids[i]);
    AllAbsent(MedLoc, 0, loc, [Absent], HEADER, done);
    AlignWord(len, 0);
    assert Pad(len) == [];
    var head := Word(o) + Word(HEADER);
    assert [] + (head + []) == head;
    assert EmitKid(PortBody, Fields(PortBody)[i], raw, kids[i], len, done) == (head, done);
    assert OrigsKid(PortBody, Fields(PortBody)[i], raw, kids[i], len, done) == [o] + [] == [o];
  }

  /**
   A message in the newer layout with sequential ids decodes to its own view
   through the fallback, whenever an early legacy slot is set (in particular when
   the local port has an id subtype), or no legacy slot is, or the first one set
   leads nowhere. Without neighbors for the legacy layout to read, it does if and only
   if the legacy walk, measured by the message's words, misses the message's end.
   */
  lemma NewerLayoutRoundTrip(t: Tree, table: Cache)
    requires Wf(Hardware(FlagsPrevious), t) && Agrees(Hardware(FlagsPrevious), t, table)
    requires Sequential(Hardware(FlagsPrevious), t)
    requires |Message(Hardware(FlagsPrevious), t)| < WORD_LIMIT
    ensures var m := Message(Hardware(FlagsPrevious), t);
            && FP_MIN <= |m| && HardwareAs(FlagsPrevious, m) == Ok(HardwareOf(FlagsPrevious, t))
            && (EarlySlotSet(m) || m[HEADER + FP_LPORT + P_ID_SUBTYPE] != 0 || AllSlotsZero(m) || FirstLateStops(m)
                ==> HardwareIn(m) == Ok(HardwareOf(FlagsPrevious, t)))
            && (LateSlot(m, 10) == 0 ==>
                  (HardwareIn(m) == Ok(HardwareOf(FlagsPrevious, t))
                   <==> (!EarlySlotSet(m) && LegacyEnd(m) == Some(|m|) ==> LegacyReading(m) == HardwareOf(FlagsPrevious, t))))
  {
    hide Message, HardwareOf, Wf, Agrees, Sequential, Slot, AllSlotsZero, EarlySlotSet, FirstLateStops, HardwareAs,
      LateSlot, LegacyEnd, LegacyReading;
    var m := Message(Hardware(FlagsPrevious), t);
    HardwareRoundTrip(FlagsPrevious, t, table);
    LegacyStart(m);
    ThirdChunk(t);
    if m[HEADER + FP_LPORT + P_ID_SUBTYPE] != 0 { SubtypeSetsEarlySlot(m); }
    if EarlySlotSet(m) || AllSlotsZero(m) || FirstLateStops(m) { NewerLayoutDecodes(m); }
    if !EarlySlotSet(m) && LateSlot(m, 10) == 0 { NewerLayoutExactly(m); }
  }

  // --------------------------------------------------------- a bare local port

  /** A local port that is not chained writes what its body writes. */
  lemma LocalBytes(local: bytes, kids: seq<Kid>)
    requires |local| == PORT_SIZE && KidsWf(LocalPort, local, kids)
    ensures |kids| == 2 && kids[1].Group? && KidsWf(PortBody, local, kids[1].kids)
    ensures EmitRun(LocalPort, 0, local, kids, HEADER, {}).0 == EmitRun(PortBody, 0, local, kids[1].kids, HEADER, {}).0
    ensures OrigsRun(LocalPort, 0, local, kids, HEADER, {}) == OrigsRun(PortBody, 0, local, kids[1].kids, HEADER, {})
  {
    hide Fields, Slot;
    PortSchema();
    assert KidWf(LocalPort, Fields(LocalPort)[0], local, kids[0]);
    assert KidWf(LocalPort, Fields(LocalPort)[1], local, kids[1]);
    SkipAbsent(LocalPort, 0, local, kids, HEADER, {});
    var (b, d) := EmitRun(PortBody, 0, local, kids[1].kids, HEADER, {});
    var o := OrigsRun(PortBody, 0, local, kids[1].kids, HEADER, {});
    assert EmitKid(LocalPort, Fields(LocalPort)[1], local, kids[1], HEADER, {}) == (b, d);
    AllAbsent(LocalPort, 2, local, kids, HEADER + |b|, d);
    assert b + [] == b;
    assert o + [] == o;
  }

  /** A port that writes nothing but its location markers. */
  predicate Bare(kids: seq<Kid>) {
    && |kids| == 10
    && (forall i | 0 <= i < 10 && !(4 <= i < 7) :: kids[i] == Absent)
    && (forall i | 4 <= i < 7 :: kids[i].Marked? && kids[i].kids == [Absent])
  }

  lemma BareBytes(raw: bytes, kids: seq<Kid>)
    requires |raw| == PORT_SIZE && KidsWf(PortBody, raw, kids) && Bare(kids)
    ensures var b := EmitRun(PortBody, 0, raw, kids, HEADER, {}).0;
            && |b| == 48 && b[..8] == Word(kids[4].orig) && b[16..24] == Word(kids[5].orig) && b[32..40] == Word(kids[6].orig)
    ensures OrigsRun(PortBody, 0, raw, kids, HEADER, {}) == [kids[4].orig, kids[5].orig, kids[6].orig]
  {
    hide Fields, Slot, KidsWf, ToLe, EmitRun, OrigsRun;
    SkipAbsent(PortBody, 0, raw, kids, 16, {});
    SkipAbsent(PortBody, 1, raw, kids, 16, {});
    SkipAbsent(PortBody, 2, raw, kids, 16, {});
    SkipAbsent(PortBody, 3, raw, kids, 16, {});
    BareMarker(4, raw, kids[4].orig, kids, 16, {});
    BareMarker(5, raw, kids[5].orig, kids, 32, {});
    BareMarker(6, raw, kids[6].orig, kids, 48, {});
    AllAbsent(PortBody, 7, raw, kids, 64, {});
    assert [kids[4].orig] + ([kids[5].orig] + ([kids[6].orig] + [])) == [kids[4].orig, kids[5].orig, kids[6].orig];
  }

  /** The words the legacy attempt would take for sizes are then the ids 3, 4, 5 and 6. */
  lemma BareWords(t: Tree)
    requires Wf(Hardware(FlagsPrevious), t) && Sequential(Hardware(FlagsPrevious), t)
    requires t.Node? && |t.kids| == 3 && t.kids[0].Marked? && |t.kids[0].kids| == 2 && t.kids[0].kids[1].Group?
    requires Bare(t.kids[0].kids[1].kids)
    ensures var m := Message(Hardware(FlagsPrevious), t);
            && |m| >= FP_MIN
            && Slot(m, THIRD_CHUNK) == 3 && Slot(m, FIRST_CHUNK + PTR) == 4 && Slot(m, SECOND_CHUNK + PTR) == 5
            && (|m| >= LATER_CHUNK + HEADER ==> Slot(m, LATER_CHUNK + PTR) == 6)
  {
    hide Fields, Slot, OrigsRun, EmitRun, ToLe, AlignUp, Message, Origs, Wf, KidsWf, Inner;
    HardwareShape(FlagsPrevious, t);
    var local, kid := Inner(t.raw, FP_LPORT, LocalPort), t.kids[0];
    BareBytes(local, kid.kids[1].kids);
    LocalBytes(local, kid.kids);
    var rest, orest := FirstField(t);
    var b := EmitRun(LocalPort, 0, local, kid.kids, HEADER, {}).0;
    var o := OrigsRun(LocalPort, 0, local, kid.kids, HEADER, {});
    var m, all := Message(Hardware(FlagsPrevious), t), Origs(Hardware(FlagsPrevious), t, {});
    assert all[2] == o[0] && all[3] == o[1] && all[4] == o[2];
    if orest != [] { assert all[5] == orest[0]; }
    BareSlots(m, Word(t.orig) + Word(|m|) + t.raw + Word(kid.orig) + Word(HEADER + |b|), b, rest);
  }

  lemma BareSlots(m: bytes, front: bytes, b: bytes, rest: bytes)
    requires |front| == THIRD_CHUNK && m == front + (b + rest) && |b| == 48
    requires b[..8] == Word(3) && b[16..24] == Word(4) && b[32..40] == Word(5)
    requires rest == [] || BeginsWith(rest, FP_MIN, 6)
    ensures |m| >= FP_MIN
    ensures Slot(m, THIRD_CHUNK) == 3 && Slot(m, FIRST_CHUNK + PTR) == 4 && Slot(m, SECOND_CHUNK + PTR) == 5
    ensures |m| >= LATER_CHUNK + HEADER ==> Slot(m, LATER_CHUNK + PTR) == 6
  {
    hide ToLe, Slot, AlignUp;
    assert m[THIRD_CHUNK..THIRD_CHUNK + PTR] == b[..8];
    SlotOfWord(m, THIRD_CHUNK, 3);
    assert m[FIRST_CHUNK + PTR..SECOND_CHUNK] == b[16..24];
    SlotOfWord(m, FIRST_CHUNK + PTR, 4);
    assert m[SECOND_CHUNK + PTR..LATER_CHUNK] == b[32..40];
    SlotOfWord(m, SECOND_CHUNK + PTR, 5);
    if rest != [] {
      AlignWord(FP_MIN, 0);
      assert m[FP_MIN..FP_MIN + PTR] == rest[..8];
      SlotOfWord(m, LATER_CHUNK + PTR, 6);
    }
  }

  /**
   A sequentially numbered message whose local port writes only its bare markers
   always reaches the fallback, whatever its slots hold and whatever follows.
   */
  lemma BareLocalRoundTrip(t: Tree, table: Cache)
    requires Wf(Hardware(FlagsPrevious), t) && Agrees(Hardware(FlagsPrevious), t, table)
    requires Sequential(Hardware(FlagsPrevious), t)
    requires t.Node? && |t.kids| == 3 && t.kids[0].Marked? && |t.kids[0].kids| == 2 && t.kids[0].kids[1].Group?
    requires Bare(t.kids[0].kids[1].kids)
    requires |Message(Hardware(FlagsPrevious), t)| < WORD_LIMIT
    ensures HardwareIn(Message(Hardware(FlagsPrevious), t)) == Ok(HardwareOf(FlagsPrevious, t))
  {
    hide Message, HardwareOf, Wf, Agrees, Sequential, Slot, HardwareAs;
    HardwareRoundTrip(FlagsPrevious, t, table);
    BareWords(t);
    SmallWordsDecode(Message(Hardware(FlagsPrevious), t));
  }
}
