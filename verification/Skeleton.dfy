/**
 Whether a payload is accepted, and where reading it ends, as arithmetic on its
 words: no value is kept, only a position and the chassis ids met so far.
 */
module Skeleton {
  import opened Bytes
  import opened Errors
  import opened Marshal
  import opened Unfolding
  import opened WellFormed
  import opened View

  datatype Place = Place(pos: nat, ids: set<nat>)

  /** The end of a chunk of type `ty`; the slots of its struct are words of the payload from `base` on. */
  function ChunkEnd(ty: Ty, p: bytes, pos: nat, ids: set<nat>): (r: Option<Place>)
    ensures r.Some? ==> pos < r.value.pos <= |p|
    decreases if pos <= |p| then |p| - pos else 0, 0, 0, 0
  {
    var q := AlignUp(pos, 8);
    if q + HEADER > |p| then None
    else if IsLeaf(ty) then
      if HEADER <= Slot(p, q + PTR) <= |p| - q then Some(Place(q + Slot(p, q + PTR), ids)) else None
    else if q + HEADER + Size(ty) > |p| || Slot(p, q + PTR) < HEADER + Size(ty) then None
    else FieldsEnd(ty, 0, p, q + HEADER, q + HEADER + Size(ty), ids)
  }

  function FieldsEnd(ty: Ty, i: nat, p: bytes, base: nat, pos: nat, ids: set<nat>): (r: Option<Place>)
    requires i <= |Fields(ty)| && base + Size(ty) <= |p| && pos <= |p|
    ensures r.Some? ==> pos <= r.value.pos <= |p|
    decreases |p| - pos, Level(ty), |Fields(ty)| - i, 1
  {
    if i == |Fields(ty)| then Some(Place(pos, ids))
    else
      match FieldEnd(ty, Fields(ty)[i], p, base, pos, ids)
      case None => None
      case Some(s) => FieldsEnd(ty, i + 1, p, base, s.pos, s.ids)
  }

  function FieldEnd(ty: Ty, f: Field, p: bytes, base: nat, pos: nat, ids: set<nat>): (r: Option<Place>)
    requires Fits(f, ty) && base + Size(ty) <= |p| && pos <= |p|
    ensures r.Some? ==> pos <= r.value.pos <= |p|
    decreases |p| - pos, Level(ty), 0, 0
  {
    match f
    case Ptr(off, t) => if Slot(p, base + off) == 0 then Some(Place(pos, ids)) else ChunkEnd(t, p, pos, ids)
    case Shared(off) =>
      var id := Slot(p, base + off);
      if id == 0 || id in ids then Some(Place(pos, ids))
      else
        (match ChunkEnd(ChassisBox, p, pos, ids)
         case None => None
         case Some(s) => Some(Place(s.pos, s.ids + {id})))
    case Sub(off, t) =>
      var q := AlignUp(pos, 8);
      if q + HEADER > |p| then None else FieldsEnd(t, 0, p, base + off, q + HEADER, ids)
    case Inline(t) => FieldsEnd(t, 0, p, base, pos, ids)
    case Check(off, present, _) => if Passes(present, Slot(p, base + off)) then Some(Place(pos, ids)) else None
  }

  /** A read that succeeds exactly where the arithmetic does, and leaves what it says. */
  predicate Ends<T>(r: Read<Seen<T>>, e: Option<Place>) {
    (r.Got? <==> e.Some?) && (r.Got? ==> e.value == Place(r.pos, r.value.cache.Keys))
  }

  lemma LeafChunk(ty: Ty, p: bytes, pos: nat, cache: Cache)
    requires IsLeaf(ty)
    ensures Ends(Walk(ty, p, pos, cache), ChunkEnd(ty, p, pos, cache.Keys))
  {
    hide Slot;
  }

  /** A struct chunk's bytes lie in the payload, where the arithmetic looks. */
  lemma PodChunk(p: bytes, pos: nat, n: nat)
    ensures var q, r := AlignUp(pos, 8), ReadPod(p, pos, n);
            && (r.Got? <==> q + HEADER + n <= |p| && Slot(p, q + PTR) >= HEADER + n)
            && (r.Got? ==> r.pos == q + HEADER + n && r.value.1 == p[q + HEADER..q + HEADER + n])
  {
    hide Slot;
  }

  lemma PodEnd(ty: Ty, p: bytes, pos: nat, ids: set<nat>)
    requires !IsLeaf(ty)
    ensures var body := AlignUp(pos, 8) + HEADER;
            if body + Size(ty) > |p| || Slot(p, body - PTR) < HEADER + Size(ty) then ChunkEnd(ty, p, pos, ids) == None
            else ChunkEnd(ty, p, pos, ids) == FieldsEnd(ty, 0, p, body, body + Size(ty), ids)
  {
    hide FieldsEnd, Slot, Size;
  }

  lemma {:induction false} WalkEnds(ty: Ty, p: bytes, pos: nat, cache: Cache)
    ensures Ends(Walk(ty, p, pos, cache), ChunkEnd(ty, p, pos, cache.Keys))
    decreases if pos <= |p| then |p| - pos else 0, 0, 0, 0
  {
    hide Fields, Run, FieldsEnd, ReadPod, Walk, Slot, Size, ChunkEnd, AlignUp;
    if IsLeaf(ty) {
      LeafChunk(ty, p, pos, cache);
    } else {
      PodFound(ty, p, pos, cache);
      PodEnd(ty, p, pos, cache.Keys);
      PodChunk(p, pos, Size(ty));
      var r := ReadPod(p, pos, Size(ty));
      if r.Got? {
        var base := AlignUp(pos, 8) + HEADER;
        RunEnds(ty, 0, p, base, r.pos, cache, []);
      }
    }
  }

  lemma {:induction false} RunEnds(ty: Ty, i: nat, p: bytes, base: nat, pos: nat, cache: Cache, kids: seq<Kid>)
    requires i <= |Fields(ty)| && base + Size(ty) <= |p| && pos <= |p|
    ensures Ends(Run(ty, i, p[base..base + Size(ty)], p, pos, cache, kids), FieldsEnd(ty, i, p, base, pos, cache.Keys))
    decreases |p| - pos, Level(ty), |Fields(ty)| - i, 1
  {
    hide Fields, Step, FieldEnd, Run, Size;
    var raw := p[base..base + Size(ty)];
    if i == |Fields(ty)| {
      RunEnd(ty, raw, p, pos, cache, kids);
    } else {
      StepEnds(ty, Fields(ty)[i], p, base, pos, cache);
      RunNext(ty, i, raw, p, pos, cache, kids);
      var s := Step(ty, Fields(ty)[i], raw, p, pos, cache);
      if s.Got? { RunEnds(ty, i + 1, p, base, s.pos, s.value.cache, kids + [s.value.item]); }
    }
  }

  lemma {:induction false} StepEnds(ty: Ty, f: Field, p: bytes, base: nat, pos: nat, cache: Cache)
    requires Fits(f, ty) && base + Size(ty) <= |p| && pos <= |p|
    ensures Ends(Step(ty, f, p[base..base + Size(ty)], p, pos, cache), FieldEnd(ty, f, p, base, pos, cache.Keys))
    decreases |p| - pos, Level(ty), 0, 1
  {
    hide Fields, FieldEnd, Step, Fits, Ends, Size;
    match f
    case Ptr(_, _) => PtrEnds(ty, f, p, base, pos, cache);
    case Shared(_) => SharedEnds(ty, f, p, base, pos, cache);
    case Sub(_, _) => SubEnds(ty, f, p, base, pos, cache);
    case Inline(_) => InlineEnds(ty, f, p, base, pos, cache);
    case Check(_, _, _) => CheckEnds(ty, f, p, base, pos, cache);
  }

  lemma {:induction false} PtrEnds(ty: Ty, f: Field, p: bytes, base: nat, pos: nat, cache: Cache)
    requires f.Ptr? && Fits(f, ty) && base + Size(ty) <= |p| && pos <= |p|
    ensures Ends(Step(ty, f, p[base..base + Size(ty)], p, pos, cache), FieldEnd(ty, f, p, base, pos, cache.Keys))
    decreases |p| - pos, 0, 1, 0
  {
    hide Walk, ChunkEnd, Slot, Size, Step;
    SlotInside(p, base, base + Size(ty), f.off);
    StepPtr(ty, f.off, f.target, p[base..base + Size(ty)], p, pos, cache);
    WalkEnds(f.target, p, pos, cache);
  }

  lemma {:induction false} SharedEnds(ty: Ty, f: Field, p: bytes, base: nat, pos: nat, cache: Cache)
    requires f.Shared? && Fits(f, ty) && base + Size(ty) <= |p| && pos <= |p|
    ensures Ends(Step(ty, f, p[base..base + Size(ty)], p, pos, cache), FieldEnd(ty, f, p, base, pos, cache.Keys))
    decreases |p| - pos, 0, 1, 0
  {
    hide Slot, Walk, ChunkEnd, Size;
    SlotInside(p, base, base + Size(ty), f.off);
    WalkEnds(ChassisBox, p, pos, cache);
  }

  lemma {:induction false} SubEnds(ty: Ty, f: Field, p: bytes, base: nat, pos: nat, cache: Cache)
    requires f.Sub? && Fits(f, ty) && base + Size(ty) <= |p| && pos <= |p|
    ensures Ends(Step(ty, f, p[base..base + Size(ty)], p, pos, cache), FieldEnd(ty, f, p, base, pos, cache.Keys))
    decreases |p| - pos, 0, 1, 0
  {
    hide Run, FieldsEnd, ReadHeader, Size, Step, Fields;
    SliceOfSlice(p, base, base + Size(ty), f.off, f.off + Size(f.target));
    StepSub(ty, f.off, f.target, p[base..base + Size(ty)], p, pos, cache);
    HeaderEnds(p, pos);
    var q := AlignUp(pos, 8);
    if q + HEADER <= |p| { RunEnds(f.target, 0, p, base + f.off, q + HEADER, cache, []); }
  }

  lemma {:induction false} InlineEnds(ty: Ty, f: Field, p: bytes, base: nat, pos: nat, cache: Cache)
    requires f.Inline? && Fits(f, ty) && base + Size(ty) <= |p| && pos <= |p|
    ensures Ends(Step(ty, f, p[base..base + Size(ty)], p, pos, cache), FieldEnd(ty, f, p, base, pos, cache.Keys))
    decreases |p| - pos, Level(ty), 0, 0
  {
    hide Run, FieldsEnd, Size, Step, Fields;
    StepInline(ty, f.target, p[base..base + Size(ty)], p, pos, cache);
    RunEnds(f.target, 0, p, base, pos, cache, []);
  }

  lemma HeaderEnds(p: bytes, pos: nat)
    ensures var h := ReadHeader(p, pos);
            (h.Got? <==> AlignUp(pos, 8) + HEADER <= |p|) && (h.Got? ==> h.pos == AlignUp(pos, 8) + HEADER)
  {
    hide Slot;
  }

  lemma CheckEnds(ty: Ty, f: Field, p: bytes, base: nat, pos: nat, cache: Cache)
    requires f.Check? && Fits(f, ty) && base + Size(ty) <= |p| && pos <= |p|
    ensures Ends(Step(ty, f, p[base..base + Size(ty)], p, pos, cache), FieldEnd(ty, f, p, base, pos, cache.Keys))
  {
    hide Slot, Size;
    SlotInside(p, base, base + Size(ty), f.off);
  }

  /** One layout attempt is decided by the message's words alone. */
  lemma AcceptedByWords(l: Layout, p: bytes)
    ensures var e := ChunkEnd(Hardware(l), p, 0, {});
            HardwareAs(l, p).Ok? <==> e.Some? && e.value.pos == |p|
  {
    hide Walk, ChunkEnd, HardwareOf, Wf;
    var none: Cache := map[];
    assert none.Keys == {};
    WalkEnds(Hardware(l), p, 0, none);
    WalkWf(Hardware(l), p, 0, none);
  }

  /**
   When a message of the newer layout comes back as what that layout says, for every
   such message: unless the legacy walk, as arithmetic on words, ends where the
   message does, and says something else.
   */
  lemma NewerLayoutDecided(p: bytes)
    requires HardwareAs(FlagsPrevious, p).Ok?
    ensures var e := ChunkEnd(Hardware(Legacy), p, 0, {});
            HardwareIn(p) == HardwareAs(FlagsPrevious, p)
            <==> (e.Some? && e.value.pos == |p| ==> HardwareAs(Legacy, p) == HardwareAs(FlagsPrevious, p))
  {
    hide ChunkEnd, HardwareAs;
    AcceptedByWords(Legacy, p);
  }
}
