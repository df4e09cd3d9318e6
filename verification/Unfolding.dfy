/** One step of the reader at a time, for proofs that hide it. */
module Unfolding {
  import opened Bytes
  import opened Marshal

  /** A struct chunk is its content, then a run over its fields. */
  lemma PodFound(ty: Ty, buf: bytes, pos: nat, cache: Cache)
    requires !IsLeaf(ty)
    ensures var p := ReadPod(buf, pos, Size(ty));
            p.Bad? ==> Walk(ty, buf, pos, cache) == Bad(p.reason, p.pos)
    ensures var p := ReadPod(buf, pos, Size(ty));
            p.Got? ==>
              var run := Run(ty, 0, p.value.1, buf, p.pos, cache, []);
              && (run.Bad? ==> Walk(ty, buf, pos, cache) == Bad(run.reason, run.pos))
              && (run.Got? ==> Walk(ty, buf, pos, cache)
                               == Got(Seen(Node(p.value.0, p.value.1, run.value.item), run.value.cache), run.pos))
  {
    hide Run, ReadPod, Size;
  }

  lemma RunEnd(ty: Ty, raw: bytes, buf: bytes, pos: nat, cache: Cache, kids: seq<Kid>)
    requires |raw| == Size(ty) && pos <= |buf|
    ensures Run(ty, |Fields(ty)|, raw, buf, pos, cache, kids) == Got(Seen(kids, cache), pos)
  {
  }

  /** A run takes one step, and goes on. */
  lemma RunNext(ty: Ty, i: nat, raw: bytes, buf: bytes, pos: nat, cache: Cache, kids: seq<Kid>)
    requires |raw| == Size(ty) && i < |Fields(ty)| && pos <= |buf|
    ensures var s := Step(ty, Fields(ty)[i], raw, buf, pos, cache);
            && (s.Bad? ==> Run(ty, i, raw, buf, pos, cache, kids) == Bad(s.reason, s.pos))
            && (s.Got? ==> Run(ty, i, raw, buf, pos, cache, kids)
                           == Run(ty, i + 1, raw, buf, s.pos, s.value.cache, kids + [s.value.item]))
  {
    hide Step, Fields;
  }

  lemma LeafFound(ty: Ty, buf: bytes, pos: nat, cache: Cache)
    requires IsLeaf(ty)
    ensures var r := ReadLeaf(buf, pos);
            Walk(ty, buf, pos, cache) == if r.Bad? then Bad(r.reason, r.pos) else Got(Seen(r.value, cache), r.pos)
  {
    hide ReadLeaf;
  }

  lemma StepPtr(ty: Ty, off: nat, t: Ty, raw: bytes, buf: bytes, pos: nat, cache: Cache)
    requires |raw| == Size(ty) && off + PTR <= |raw| && pos <= |buf|
    ensures Slot(raw, off) == 0 ==> Step(ty, Ptr(off, t), raw, buf, pos, cache) == Got(Seen(Absent, cache), pos)
    ensures var w := Walk(t, buf, pos, cache);
            Slot(raw, off) != 0 && w.Bad? ==> Step(ty, Ptr(off, t), raw, buf, pos, cache) == Bad(w.reason, w.pos)
    ensures var w := Walk(t, buf, pos, cache);
            Slot(raw, off) != 0 && w.Got? ==>
              Step(ty, Ptr(off, t), raw, buf, pos, cache) == Got(Seen(Child(w.value.item), w.value.cache), w.pos)
  {
    hide Walk, Slot;
    var s := Step(ty, Ptr(off, t), raw, buf, pos, cache);
    var w := Walk(t, buf, pos, cache);
    if Slot(raw, off) == 0 {
      assert s == Got(Seen(Absent, cache), pos);
    } else if w.Bad? {
      assert s == Bad(w.reason, w.pos);
    } else {
      assert s == Got(Seen(Child(w.value.item), w.value.cache), w.pos);
    }
  }

  lemma StepSub(ty: Ty, off: nat, t: Ty, raw: bytes, buf: bytes, pos: nat, cache: Cache)
    requires |raw| == Size(ty) && off + Size(t) <= |raw| && pos <= |buf|
    ensures var h := ReadHeader(buf, pos);
            h.Bad? ==> Step(ty, Sub(off, t), raw, buf, pos, cache) == Bad(h.reason, h.pos)
    ensures var h := ReadHeader(buf, pos);
            h.Got? ==>
              var run := Run(t, 0, Inner(raw, off, t), buf, h.pos, cache, []);
              && (run.Bad? ==> Step(ty, Sub(off, t), raw, buf, pos, cache) == Bad(run.reason, run.pos))
              && (run.Got? ==> Step(ty, Sub(off, t), raw, buf, pos, cache)
                               == Got(Seen(Marked(h.value.0, run.value.item), run.value.cache), run.pos))
  {
    hide Run, ReadHeader, Inner;
    var s, h := Step(ty, Sub(off, t), raw, buf, pos, cache), ReadHeader(buf, pos);
    if h.Bad? {
      assert s == Bad(h.reason, h.pos);
    } else {
      var run := Run(t, 0, Inner(raw, off, t), buf, h.pos, cache, []);
      if run.Bad? { assert s == Bad(run.reason, run.pos); }
      if run.Got? { assert s == Got(Seen(Marked(h.value.0, run.value.item), run.value.cache), run.pos); }
    }
  }

  lemma StepInline(ty: Ty, t: Ty, raw: bytes, buf: bytes, pos: nat, cache: Cache)
    requires |raw| == Size(ty) && Fits(Inline(t), ty) && pos <= |buf|
    ensures var s, run := Step(ty, Inline(t), raw, buf, pos, cache), Run(t, 0, raw, buf, pos, cache, []);
            if run.Bad? then s == Bad(run.reason, run.pos)
            else s == Got(Seen(Group(run.value.item), run.value.cache), run.pos)
  {
    hide Run, Walk, Slot, Inner, Fields, ReadHeader;
  }

  /** A run extends what it was given. */
  lemma {:induction false} RunPrefix(ty: Ty, i: nat, raw: bytes, buf: bytes, pos: nat, cache: Cache, kids: seq<Kid>)
    requires |raw| == Size(ty) && |kids| == i <= |Fields(ty)| && pos <= |buf|
    ensures var r := Run(ty, i, raw, buf, pos, cache, kids);
            r.Got? ==> |r.value.item| == |Fields(ty)| && r.value.item[..i] == kids
    decreases |Fields(ty)| - i
  {
    hide Fields, Step;
    if i < |Fields(ty)| {
      var s := Step(ty, Fields(ty)[i], raw, buf, pos, cache);
      if s.Got? {
        RunPrefix(ty, i + 1, raw, buf, s.pos, s.value.cache, kids + [s.value.item]);
        var r := Run(ty, i, raw, buf, pos, cache, kids);
        if r.Got? { assert r.value.item[..i] == r.value.item[..i + 1][..i]; }
      }
    }
  }
}
