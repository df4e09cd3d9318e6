/**
 A successful read depends only on the bytes before the position where it ends.
 From it: one layout's messages are prefix-free, and readers that do not insist
 on exhaustion are blind to what follows.
 */
module Locality {
  import opened Bytes
  import opened Marshal

  /** The two buffers hold the same first `e` bytes. */
  predicate Agree(b1: bytes, b2: bytes, e: nat) {
    e <= |b1| && e <= |b2| && b1[..e] == b2[..e]
  }

  lemma AgreeOn(b1: bytes, b2: bytes, e: nat, lo: nat, hi: nat)
    requires Agree(b1, b2, e) && lo <= hi <= e
    ensures b1[lo..hi] == b2[lo..hi]
    ensures Agree(b1, b2, hi)
  {
    assert b1[lo..hi] == b1[..e][lo..hi];
    assert b2[lo..hi] == b2[..e][lo..hi];
    assert b1[..hi] == b1[..e][..hi];
    assert b2[..hi] == b2[..e][..hi];
  }

  lemma HeaderLocal(b1: bytes, b2: bytes, pos: nat)
    requires ReadHeader(b1, pos).Got? && Agree(b1, b2, ReadHeader(b1, pos).pos)
    ensures ReadHeader(b2, pos) == ReadHeader(b1, pos)
  {
    var p := AlignUp(pos, 8);
    AgreeOn(b1, b2, p + HEADER, p, p + PTR);
    AgreeOn(b1, b2, p + HEADER, p + PTR, p + HEADER);
  }

  lemma LeafLocal(b1: bytes, b2: bytes, pos: nat)
    requires ReadLeaf(b1, pos).Got? && Agree(b1, b2, ReadLeaf(b1, pos).pos)
    ensures ReadLeaf(b2, pos) == ReadLeaf(b1, pos)
  {
    var e := ReadLeaf(b1, pos).pos;
    var p := ReadHeader(b1, pos).pos;
    AgreeOn(b1, b2, e, p, e);
    AgreeOn(b1, b2, e, 0, p);
    HeaderLocal(b1, b2, pos);
  }

  lemma PodLocal(b1: bytes, b2: bytes, pos: nat, n: nat)
    requires ReadPod(b1, pos, n).Got? && Agree(b1, b2, ReadPod(b1, pos, n).pos)
    ensures ReadPod(b2, pos, n) == ReadPod(b1, pos, n)
  {
    var e := ReadPod(b1, pos, n).pos;
    var p := ReadHeader(b1, pos).pos;
    AgreeOn(b1, b2, e, p, e);
    AgreeOn(b1, b2, e, 0, p);
    HeaderLocal(b1, b2, pos);
  }

  lemma {:induction false} WalkLocal(ty: Ty, b1: bytes, b2: bytes, pos: nat, cache: Cache)
    requires Walk(ty, b1, pos, cache).Got? && Agree(b1, b2, Walk(ty, b1, pos, cache).pos)
    ensures Walk(ty, b2, pos, cache) == Walk(ty, b1, pos, cache)
    decreases if pos <= |b1| then |b1| - pos else 0, 0, 0, 0
  {
    var e := Walk(ty, b1, pos, cache).pos;
    if IsLeaf(ty) {
      LeafLocal(b1, b2, pos);
    } else {
      var r := ReadPod(b1, pos, Size(ty));
      AgreeOn(b1, b2, e, 0, r.pos);
      PodLocal(b1, b2, pos, Size(ty));
      RunLocal(ty, 0, r.value.1, b1, b2, r.pos, cache, []);
    }
  }

  lemma {:induction false} RunLocal(ty: Ty, i: nat, raw: bytes, b1: bytes, b2: bytes, pos: nat, cache: Cache,
                                    kids: seq<Kid>)
    requires |raw| == Size(ty) && i <= |Fields(ty)| && pos <= |b1| && pos <= |b2|
    requires Run(ty, i, raw, b1, pos, cache, kids).Got? && Agree(b1, b2, Run(ty, i, raw, b1, pos, cache, kids).pos)
    ensures Run(ty, i, raw, b2, pos, cache, kids) == Run(ty, i, raw, b1, pos, cache, kids)
    decreases |b1| - pos, Level(ty), |Fields(ty)| - i, 1
  {
    if i < |Fields(ty)| {
      var f := Fields(ty)[i];
      var e := Run(ty, i, raw, b1, pos, cache, kids).pos;
      var s := Step(ty, f, raw, b1, pos, cache);
      AgreeOn(b1, b2, e, 0, s.pos);
      StepLocal(ty, f, raw, b1, b2, pos, cache);
      RunLocal(ty, i + 1, raw, b1, b2, s.pos, s.value.cache, kids + [s.value.item]);
    }
  }

  lemma {:induction false} StepLocal(ty: Ty, f: Field, raw: bytes, b1: bytes, b2: bytes, pos: nat, cache: Cache)
    requires |raw| == Size(ty) && Fits(f, ty) && pos <= |b1| && pos <= |b2|
    requires Step(ty, f, raw, b1, pos, cache).Got? && Agree(b1, b2, Step(ty, f, raw, b1, pos, cache).pos)
    ensures Step(ty, f, raw, b2, pos, cache) == Step(ty, f, raw, b1, pos, cache)
    decreases |b1| - pos, Level(ty), 0, 0
  {
    hide Agree, Inner;
    var e := Step(ty, f, raw, b1, pos, cache).pos;
    match f
    case Ptr(off, t) =>
      if Slot(raw, off) != 0 { WalkLocal(t, b1, b2, pos, cache); }
    case Shared(off) =>
      var id := Slot(raw, off);
      if id != 0 && id !in cache { WalkLocal(ChassisBox, b1, b2, pos, cache); }
    case Sub(off, t) =>
      var h := ReadHeader(b1, pos);
      AgreeOn(b1, b2, e, 0, h.pos);
      HeaderLocal(b1, b2, pos);
      RunLocal(t, 0, Inner(raw, off, t), b1, b2, h.pos, cache, []);
    case Inline(t) =>
      RunLocal(t, 0, raw, b1, b2, pos, cache, []);
    case Check(_, _, _) =>
  }

  /** Bytes appended after a successful read change nothing. */
  lemma ExtensionInvisible(ty: Ty, buf: bytes, more: bytes, cache: Cache)
    requires Walk(ty, buf, 0, cache).Got?
    ensures Walk(ty, buf + more, 0, cache) == Walk(ty, buf, 0, cache)
  {
    var e := Walk(ty, buf, 0, cache).pos;
    assert (buf + more)[..e] == buf[..e];
    WalkLocal(ty, buf, buf + more, 0, cache);
  }
}
