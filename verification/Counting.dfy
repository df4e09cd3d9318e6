/** How many chassis chunks a read takes from the wire: one for each id that is new. */
module Counting {
  import opened Bytes
  import opened Marshal
  import opened Sharing

  /** Chassis chunks taken from the buffer while reading a chunk of type `ty`, itself included. */
  function WalkChunks(ty: Ty, buf: bytes, pos: nat, cache: Cache): nat
    decreases if pos <= |buf| then |buf| - pos else 0, 0, 0, 0
  {
    if IsLeaf(ty) then 0
    else
      match ReadPod(buf, pos, Size(ty))
      case Bad(_, _) => 0
      case Got(pod, p) => (if ty.ChassisBox? then 1 else 0) + RunChunks(ty, 0, pod.1, buf, p, cache)
  }

  function RunChunks(ty: Ty, i: nat, raw: bytes, buf: bytes, pos: nat, cache: Cache): nat
    requires |raw| == Size(ty) && i <= |Fields(ty)| && pos <= |buf|
    decreases |buf| - pos, Level(ty), |Fields(ty)| - i, 1
  {
    if i == |Fields(ty)| then 0
    else
      StepChunks(ty, Fields(ty)[i], raw, buf, pos, cache) +
      match Step(ty, Fields(ty)[i], raw, buf, pos, cache)
      case Bad(_, _) => 0
      case Got(s, p) => RunChunks(ty, i + 1, raw, buf, p, s.cache)
  }

  function StepChunks(ty: Ty, f: Field, raw: bytes, buf: bytes, pos: nat, cache: Cache): nat
    requires |raw| == Size(ty) && Fits(f, ty) && pos <= |buf|
    decreases |buf| - pos, Level(ty), 0, 0
  {
    match f
    case Ptr(off, t) => if Slot(raw, off) == 0 then 0 else WalkChunks(t, buf, pos, cache)
    case Shared(off) =>
      if Slot(raw, off) == 0 || Slot(raw, off) in cache then 0 else WalkChunks(ChassisBox, buf, pos, cache)
    case Sub(off, t) =>
      (match ReadHeader(buf, pos)
       case Bad(_, _) => 0
       case Got(_, p) => RunChunks(t, 0, Inner(raw, off, t), buf, p, cache))
    case Inline(t) => RunChunks(t, 0, raw, buf, pos, cache)
    case Check(_, _, _) => 0
  }

  /** A chassis is only ever reached through a shared field. */
  predicate NoChassis(f: Field) {
    match f
    case Ptr(_, t) => !t.ChassisBox?
    case Sub(_, t) => !t.ChassisBox?
    case Inline(t) => !t.ChassisBox?
    case _ => true
  }

  lemma ChassisOnlyShared(ty: Ty)
    ensures forall i | 0 <= i < |Fields(ty)| :: NoChassis(Fields(ty)[i])
  {
  }

  /** The chunks read are exactly the bindings gained, but for the chunk itself if it is a chassis. */
  lemma {:induction false} ChunksAreBindings(ty: Ty, buf: bytes, pos: nat, cache: Cache)
    requires Walk(ty, buf, pos, cache).Got?
    ensures |Walk(ty, buf, pos, cache).value.cache| + (if ty.ChassisBox? then 1 else 0)
         == |cache| + WalkChunks(ty, buf, pos, cache)
    decreases if pos <= |buf| then |buf| - pos else 0, 0, 0, 0
  {
    hide Fields, Run, RunChunks, ReadPod, ReadLeaf, Size;
    if !IsLeaf(ty) {
      var r := ReadPod(buf, pos, Size(ty));
      RunChunksAreBindings(ty, 0, r.value.1, buf, r.pos, cache, []);
    }
  }

  lemma {:induction false} RunChunksAreBindings(ty: Ty, i: nat, raw: bytes, buf: bytes, pos: nat, cache: Cache,
                                               kids: seq<Kid>)
    requires |raw| == Size(ty) && i <= |Fields(ty)| && pos <= |buf|
    requires Run(ty, i, raw, buf, pos, cache, kids).Got?
    ensures |Run(ty, i, raw, buf, pos, cache, kids).value.cache| == |cache| + RunChunks(ty, i, raw, buf, pos, cache)
    decreases |buf| - pos, Level(ty), |Fields(ty)| - i, 1
  {
    hide Fields, Step, StepChunks, NoChassis;
    if i < |Fields(ty)| {
      ChassisOnlyShared(ty);
      StepChunksAreBindings(ty, Fields(ty)[i], raw, buf, pos, cache);
      var s := Step(ty, Fields(ty)[i], raw, buf, pos, cache);
      RunChunksAreBindings(ty, i + 1, raw, buf, s.pos, s.value.cache, kids + [s.value.item]);
    }
  }

  lemma {:induction false} StepChunksAreBindings(ty: Ty, f: Field, raw: bytes, buf: bytes, pos: nat, cache: Cache)
    requires |raw| == Size(ty) && Fits(f, ty) && pos <= |buf| && NoChassis(f)
    requires Step(ty, f, raw, buf, pos, cache).Got?
    ensures |Step(ty, f, raw, buf, pos, cache).value.cache| == |cache| + StepChunks(ty, f, raw, buf, pos, cache)
    decreases |buf| - pos, Level(ty), 0, 0
  {
    hide Fields, Run, RunChunks, Walk, WalkChunks, Slot, ReadHeader, Inner;
    match f
    case Ptr(off, t) => if Slot(raw, off) != 0 { ChunksAreBindings(t, buf, pos, cache); }
    case Shared(off) =>
      var id := Slot(raw, off);
      if id != 0 && id !in cache {
        ChunksAreBindings(ChassisBox, buf, pos, cache);
        ClosedWalk(ChassisBox, buf, pos, cache);
      }
    case Sub(off, t) =>
      RunChunksAreBindings(t, 0, Inner(raw, off, t), buf, ReadHeader(buf, pos).pos, cache, []);
    case Inline(t) => RunChunksAreBindings(t, 0, raw, buf, pos, cache, []);
    case Check(_, _, _) =>
  }
}
