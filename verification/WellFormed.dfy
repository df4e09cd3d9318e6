/** What reading yields is always a well-formed tree of its type. */
module WellFormed {
  import opened Bytes
  import opened Marshal

  predicate CacheWf(cache: Cache) {
    forall id | id in cache :: Wf(ChassisBox, cache[id])
  }

  lemma {:induction false} WalkWf(ty: Ty, buf: bytes, pos: nat, cache: Cache)
    requires CacheWf(cache)
    ensures var r := Walk(ty, buf, pos, cache);
            r.Got? ==> Wf(ty, r.value.item) && CacheWf(r.value.cache)
    decreases if pos <= |buf| then |buf| - pos else 0, 0, 0, 0
  {
    hide Fields, Run, KidsWf, CacheWf, ReadLeaf, ReadPod, Size;
    if !IsLeaf(ty) {
      var r := ReadPod(buf, pos, Size(ty));
      if r.Got? {
        RunWf(ty, 0, r.value.1, buf, r.pos, cache, []);
        var s := Run(ty, 0, r.value.1, buf, r.pos, cache, []);
        if s.Got? {
          assert Walk(ty, buf, pos, cache) == Got(Seen(Node(r.value.0, r.value.1, s.value.item), s.value.cache), s.pos);
        }
      }
    }
  }

  lemma {:induction false} RunWf(ty: Ty, i: nat, raw: bytes, buf: bytes, pos: nat, cache: Cache, kids: seq<Kid>)
    requires |raw| == Size(ty) && |kids| == i <= |Fields(ty)| && pos <= |buf| && CacheWf(cache)
    requires forall j | 0 <= j < i :: KidWf(ty, Fields(ty)[j], raw, kids[j])
    ensures var r := Run(ty, i, raw, buf, pos, cache, kids);
            r.Got? ==> KidsWf(ty, raw, r.value.item) && CacheWf(r.value.cache)
    decreases if pos <= |buf| then |buf| - pos else 0, Level(ty), |Fields(ty)| - i, 1
  {
    hide Fields, Step, KidWf, CacheWf;
    if i < |Fields(ty)| {
      var f := Fields(ty)[i];
      StepWf(ty, f, raw, buf, pos, cache);
      var s := Step(ty, f, raw, buf, pos, cache);
      if s.Got? { RunWf(ty, i + 1, raw, buf, s.pos, s.value.cache, kids + [s.value.item]); }
    }
  }

  lemma {:induction false} StepWf(ty: Ty, f: Field, raw: bytes, buf: bytes, pos: nat, cache: Cache)
    requires |raw| == Size(ty) && Fits(f, ty) && pos <= |buf| && CacheWf(cache)
    ensures var r := Step(ty, f, raw, buf, pos, cache);
            r.Got? ==> KidWf(ty, f, raw, r.value.item) && CacheWf(r.value.cache)
    decreases if pos <= |buf| then |buf| - pos else 0, Level(ty), 0, 0
  {
    hide Fields, Run, Walk, KidsWf, Slot, ReadHeader, Wf, Inner;
    match f
    case Ptr(_, t) => WalkWf(t, buf, pos, cache);
    case Shared(_) => WalkWf(ChassisBox, buf, pos, cache);
    case Sub(off, t) =>
      var h := ReadHeader(buf, pos);
      if h.Got? { RunWf(t, 0, Inner(raw, off, t), buf, h.pos, cache, []); }
    case Inline(t) => RunWf(t, 0, raw, buf, pos, cache, []);
    case Check(_, _, _) =>
  }
}
