/** Reading what the serializer wrote gives back the tree, whatever surrounds it. */
module RoundTrip {
  import opened Bytes
  import opened Marshal
  import opened Unfolding
  import opened Emitter

  /** The buffer holds `b` at `pos`. */
  predicate Holds(buf: bytes, pos: nat, b: bytes) {
    pos + |b| <= |buf| && buf[pos..pos + |b|] == b
  }

  lemma HoldsSplit(buf: bytes, pos: nat, a: bytes, b: bytes)
    requires Holds(buf, pos, a + b)
    ensures Holds(buf, pos, a) && Holds(buf, pos + |a|, b)
  {
    var s := buf[pos..pos + |a + b|];
    assert buf[pos..pos + |a|] == s[..|a|] == a;
    assert buf[pos + |a|..pos + |a| + |b|] == s[|a|..] == b;
  }

  lemma HeaderRead(buf: bytes, pos: nat, orig: nat, size: nat)
    requires pos % 8 == 0 && orig < WORD_LIMIT && size < WORD_LIMIT
    requires Holds(buf, pos, Word(orig) + Word(size))
    ensures ReadHeader(buf, pos) == Got((orig, size), pos + HEADER)
  {
    HoldsSplit(buf, pos, Word(orig), Word(size));
    SlotOfWord(buf, pos, orig);
    SlotOfWord(buf, pos + PTR, size);
  }

  /** Padding is skipped: reading starts at the next aligned position. */
  lemma HeaderAligned(buf: bytes, pos: nat)
    ensures ReadHeader(buf, pos) == ReadHeader(buf, AlignUp(pos, 8))
  {
    hide AlignUp, Slot;
    AlignWord(0, pos);
    AlignWord(AlignUp(pos, 8), 0);
  }

  lemma WalkAligned(ty: Ty, buf: bytes, pos: nat, cache: Cache)
    ensures Walk(ty, buf, pos, cache) == Walk(ty, buf, AlignUp(pos, 8), cache)
  {
    hide AlignUp, Run, ReadHeader;
    HeaderAligned(buf, pos);
  }

  lemma LeafRead(buf: bytes, pos: nat, orig: nat, body: bytes)
    requires pos % 8 == 0 && orig < WORD_LIMIT && |buf| < WORD_LIMIT
    requires Holds(buf, pos, Word(orig) + Word(HEADER + |body|) + body)
    ensures ReadLeaf(buf, pos) == Got(Leaf(orig, body), pos + HEADER + |body|)
  {
    HoldsSplit(buf, pos, Word(orig) + Word(HEADER + |body|), body);
    HeaderRead(buf, pos, orig, HEADER + |body|);
  }

  lemma PodRead(buf: bytes, pos: nat, orig: nat, raw: bytes, tail: bytes)
    requires pos % 8 == 0 && orig < WORD_LIMIT && |buf| < WORD_LIMIT
    requires Holds(buf, pos, Word(orig) + Word(HEADER + |raw| + |tail|) + raw + tail)
    ensures ReadPod(buf, pos, |raw|) == Got((orig, raw), pos + HEADER + |raw|)
    ensures Holds(buf, pos + (HEADER + |raw|), tail)
  {
    var head := Word(orig) + Word(HEADER + |raw| + |tail|);
    HoldsSplit(buf, pos, head + raw, tail);
    HoldsSplit(buf, pos, head, raw);
    HeaderRead(buf, pos, orig, HEADER + |raw| + |tail|);
  }

  lemma {:induction false} TreeRead(ty: Ty, t: Tree, table: Cache, done: set<nat>, buf: bytes, pos: nat)
    requires Wf(ty, t) && Agrees(ty, t, table)
    requires pos % 8 == 0 && |buf| < WORD_LIMIT
    requires Holds(buf, pos, Emit(ty, t, done).0)
    ensures var (b, d) := Emit(ty, t, done);
            Walk(ty, buf, pos, Known(table, done)) == Got(Seen(t, Known(table, d)), pos + |b|)
    decreases t, 0
  {
    hide AlignUp, Slot, Fields, Run, EmitRun, KidsWf, KidsAgree, Known, ToLe, Holds, ReadLeaf, ReadPod, Walk;
    if IsLeaf(ty) {
      LeafRead(buf, pos, t.orig, t.body);
      LeafFound(ty, buf, pos, Known(table, done));
    } else {
      var (tail, d) := EmitRun(ty, 0, t.raw, t.kids, HEADER + |t.raw|, done);
      PodRead(buf, pos, t.orig, t.raw, tail);
      RunRead(ty, 0, t.raw, t.kids, table, done, buf, pos, HEADER + |t.raw|);
      assert t.kids[..0] == [];
      PodFound(ty, buf, pos, Known(table, done));
    }
  }

  /** The same for a child that starts after padding. */
  lemma {:induction false} PaddedRead(ty: Ty, t: Tree, table: Cache, done: set<nat>, buf: bytes, start: nat, len: nat)
    requires Wf(ty, t) && Agrees(ty, t, table)
    requires start % 8 == 0 && |buf| < WORD_LIMIT
    requires Holds(buf, start + len, Pad(len) + Emit(ty, t, done).0)
    ensures var (b, d) := Emit(ty, t, done);
            Walk(ty, buf, start + len, Known(table, done))
            == Got(Seen(t, Known(table, d)), start + len + |Pad(len) + b|)
    decreases t, 1
  {
    hide AlignUp, Walk, Emit, Wf, Agrees, Known, Holds;
    var b := Emit(ty, t, done).0;
    AlignWord(start, len);
    HoldsSplit(buf, start + len, Pad(len), b);
    TreeRead(ty, t, table, done, buf, start + len + |Pad(len)|);
    WalkAligned(ty, buf, start + len, Known(table, done));
  }

  /** The same for an embedded struct: its marker header, then its fields. */
  lemma {:induction false} MarkedRead(ty: Ty, orig: nat, raw: bytes, kids: seq<Kid>, table: Cache, done: set<nat>,
                                      buf: bytes, start: nat, len: nat)
    requires |raw| == Size(ty) && KidsWf(ty, raw, kids) && KidsAgree(ty, raw, kids, table)
    requires orig < WORD_LIMIT && start % 8 == 0 && |buf| < WORD_LIMIT
    requires var b := EmitRun(ty, 0, raw, kids, HEADER, done).0;
             Holds(buf, start + len, Pad(len) + (Word(orig) + Word(HEADER + |b|) + b))
    ensures var (b, d) := EmitRun(ty, 0, raw, kids, HEADER, done);
            && ReadHeader(buf, start + len) == Got((orig, HEADER + |b|), start + len + |Pad(len)| + HEADER)
            && Run(ty, 0, raw, buf, start + len + |Pad(len)| + HEADER, Known(table, done), [])
               == Got(Seen(kids, Known(table, d)), start + len + |Pad(len)| + HEADER + |b|)
    decreases kids, |kids| + 1
  {
    hide AlignUp, Run, EmitRun, KidsWf, KidsAgree, Known, ToLe, Holds, ReadHeader, Fields;
    AlignWord(start, len);
    var pos := start + len + |Pad(len)|;
    var (b, d) := EmitRun(ty, 0, raw, kids, HEADER, done);
    var head := Word(orig) + Word(HEADER + |b|);
    HoldsSplit(buf, start + len, Pad(len), head + b);
    HoldsSplit(buf, pos, head, b);
    HeaderRead(buf, pos, orig, HEADER + |b|);
    HeaderAligned(buf, start + len);
    RunRead(ty, 0, raw, kids, table, done, buf, pos, HEADER);
    assert kids[..0] == [];
  }

  lemma {:induction false} RunRead(ty: Ty, i: nat, raw: bytes, kids: seq<Kid>, table: Cache, done: set<nat>,
                                   buf: bytes, start: nat, len: nat)
    requires |raw| == Size(ty) && KidsWf(ty, raw, kids) && KidsAgree(ty, raw, kids, table) && i <= |kids|
    requires start % 8 == 0 && |buf| < WORD_LIMIT
    requires Holds(buf, start + len, EmitRun(ty, i, raw, kids, len, done).0)
    ensures var (b, d) := EmitRun(ty, i, raw, kids, len, done);
            Run(ty, i, raw, buf, start + len, Known(table, done), kids[..i])
            == Got(Seen(kids, Known(table, d)), start + len + |b|)
    decreases kids, |kids| - i
  {
    hide AlignUp, Slot, Fields, Emit, EmitKid, Walk, Step, KidWf, KidAgrees, Known, Holds;
    if i < |kids| {
      var f := Fields(ty)[i];
      var (b, d) := EmitKid(ty, f, raw, kids[i], len, done);
      var (rest, d') := EmitRun(ty, i + 1, raw, kids, len + |b|, d);
      HoldsSplit(buf, start + len, b, rest);
      KidRead(ty, f, raw, kids[i], table, done, buf, start, len);
      assert kids[..i] + [kids[i]] == kids[..i + 1];
      RunRead(ty, i + 1, raw, kids, table, d, buf, start, len + |b|);
    } else {
      assert kids[..i] == kids;
    }
  }

  lemma KnownKeys(table: Cache, done: set<nat>)
    ensures forall id | id in table :: id in Known(table, done) <==> id in done
    ensures forall id | id in Known(table, done) :: Known(table, done)[id] == table[id]
  {
  }

  lemma KnownInsert(table: Cache, done: set<nat>, id: nat)
    requires id in table
    ensures Known(table, done)[id := table[id]] == Known(table, done + {id})
  {
  }

  lemma {:induction false} KidRead(ty: Ty, f: Field, raw: bytes, kid: Kid, table: Cache, done: set<nat>,
                                   buf: bytes, start: nat, len: nat)
    requires |raw| == Size(ty) && Fits(f, ty) && KidWf(ty, f, raw, kid) && KidAgrees(ty, f, raw, kid, table)
    requires start % 8 == 0 && |buf| < WORD_LIMIT
    requires Holds(buf, start + len, EmitKid(ty, f, raw, kid, len, done).0)
    ensures var (b, d) := EmitKid(ty, f, raw, kid, len, done);
            Step(ty, f, raw, buf, start + len, Known(table, done)) == Got(Seen(kid, Known(table, d)), start + len + |b|)
    decreases kid, 1
  {
    hide Slot, Fields, EmitKid, KidWf, KidAgrees, Holds, Known, Step, Fits;
    match f
    case Ptr(_, _) => PtrRead(ty, f, raw, kid, table, done, buf, start, len);
    case Shared(_) => SharedRead(ty, f, raw, kid, table, done, buf, start, len);
    case Sub(_, _) => SubRead(ty, f, raw, kid, table, done, buf, start, len);
    case Inline(_) => InlineRead(ty, f, raw, kid, table, done, buf, start, len);
    case Check(_, _, _) => CheckRead(ty, f, raw, kid, table, done, buf, start, len);
  }

  lemma {:induction false} PtrRead(ty: Ty, f: Field, raw: bytes, kid: Kid, table: Cache, done: set<nat>,
                                   buf: bytes, start: nat, len: nat)
    requires f.Ptr? && |raw| == Size(ty) && Fits(f, ty) && KidWf(ty, f, raw, kid) && KidAgrees(ty, f, raw, kid, table)
    requires start % 8 == 0 && |buf| < WORD_LIMIT
    requires Holds(buf, start + len, EmitKid(ty, f, raw, kid, len, done).0)
    ensures var (b, d) := EmitKid(ty, f, raw, kid, len, done);
            Step(ty, f, raw, buf, start + len, Known(table, done)) == Got(Seen(kid, Known(table, d)), start + len + |b|)
    decreases kid, 0
  {
    hide AlignUp, Slot, Fields, Run, EmitRun, KidsWf, KidsAgree, Walk, Emit, Wf, Agrees, ToLe, Holds,
      ReadHeader, Known, Inner, Step;
    HoldsFits(buf, start + len, EmitKid(ty, f, raw, kid, len, done).0);
    StepPtr(ty, f.off, f.target, raw, buf, start + len, Known(table, done));
    if kid.Child? { PaddedRead(f.target, kid.tree, table, done, buf, start, len); }
  }

  /** A chassis: on the wire at its id's first occurrence, in the cache at any later one. */
  lemma {:induction false} SharedRead(ty: Ty, f: Field, raw: bytes, kid: Kid, table: Cache, done: set<nat>,
                                   buf: bytes, start: nat, len: nat)
    requires f.Shared? && |raw| == Size(ty) && Fits(f, ty) && KidWf(ty, f, raw, kid) && KidAgrees(ty, f, raw, kid, table)
    requires start % 8 == 0 && |buf| < WORD_LIMIT
    requires Holds(buf, start + len, EmitKid(ty, f, raw, kid, len, done).0)
    ensures var (b, d) := EmitKid(ty, f, raw, kid, len, done);
            Step(ty, f, raw, buf, start + len, Known(table, done)) == Got(Seen(kid, Known(table, d)), start + len + |b|)
    decreases kid, 0
  {
    hide AlignUp, Slot, Fields, Run, Walk, Emit, Wf, Agrees, ToLe, Holds, Known;
    HoldsFits(buf, start + len, EmitKid(ty, f, raw, kid, len, done).0);
    KnownKeys(table, done);
    var id := Slot(raw, f.off);
    if kid.Child? && id !in done {
      PaddedRead(ChassisBox, kid.tree, table, done, buf, start, len);
      KnownInsert(table, Emit(ChassisBox, kid.tree, done).1, id);
    }
  }

  lemma {:induction false} SubRead(ty: Ty, f: Field, raw: bytes, kid: Kid, table: Cache, done: set<nat>,
                                   buf: bytes, start: nat, len: nat)
    requires f.Sub? && |raw| == Size(ty) && Fits(f, ty) && KidWf(ty, f, raw, kid) && KidAgrees(ty, f, raw, kid, table)
    requires start % 8 == 0 && |buf| < WORD_LIMIT
    requires Holds(buf, start + len, EmitKid(ty, f, raw, kid, len, done).0)
    ensures var (b, d) := EmitKid(ty, f, raw, kid, len, done);
            Step(ty, f, raw, buf, start + len, Known(table, done)) == Got(Seen(kid, Known(table, d)), start + len + |b|)
    decreases kid, 0
  {
    hide AlignUp, Slot, Fields, Run, EmitRun, KidsWf, KidsAgree, Walk, Emit, Wf, Agrees, ToLe, Holds,
      ReadHeader, Known, Inner, Step;
    HoldsFits(buf, start + len, EmitKid(ty, f, raw, kid, len, done).0);
    StepSub(ty, f.off, f.target, raw, buf, start + len, Known(table, done));
    MarkedRead(f.target, kid.orig, Inner(raw, f.off, f.target), kid.kids, table, done, buf, start, len);
  }

  lemma {:induction false} InlineRead(ty: Ty, f: Field, raw: bytes, kid: Kid, table: Cache, done: set<nat>,
                                   buf: bytes, start: nat, len: nat)
    requires f.Inline? && |raw| == Size(ty) && Fits(f, ty) && KidWf(ty, f, raw, kid) && KidAgrees(ty, f, raw, kid, table)
    requires start % 8 == 0 && |buf| < WORD_LIMIT
    requires Holds(buf, start + len, EmitKid(ty, f, raw, kid, len, done).0)
    ensures var (b, d) := EmitKid(ty, f, raw, kid, len, done);
            Step(ty, f, raw, buf, start + len, Known(table, done)) == Got(Seen(kid, Known(table, d)), start + len + |b|)
    decreases kid, 0
  {
    hide AlignUp, Slot, Fields, Run, EmitRun, KidsWf, KidsAgree, Walk, Emit, Wf, Agrees, ToLe, Holds,
      ReadHeader, Known, Inner, Step;
    HoldsFits(buf, start + len, EmitKid(ty, f, raw, kid, len, done).0);
    StepInline(ty, f.target, raw, buf, start + len, Known(table, done));
    RunRead(f.target, 0, raw, kid.kids, table, done, buf, start, len);
    assert kid.kids[..0] == [];
  }

  lemma {:induction false} CheckRead(ty: Ty, f: Field, raw: bytes, kid: Kid, table: Cache, done: set<nat>,
                                   buf: bytes, start: nat, len: nat)
    requires f.Check? && |raw| == Size(ty) && Fits(f, ty) && KidWf(ty, f, raw, kid) && KidAgrees(ty, f, raw, kid, table)
    requires start % 8 == 0 && |buf| < WORD_LIMIT
    requires Holds(buf, start + len, EmitKid(ty, f, raw, kid, len, done).0)
    ensures var (b, d) := EmitKid(ty, f, raw, kid, len, done);
            Step(ty, f, raw, buf, start + len, Known(table, done)) == Got(Seen(kid, Known(table, d)), start + len + |b|)
    decreases kid, 0
  {
    hide Slot, Holds, Known;
    HoldsFits(buf, start + len, EmitKid(ty, f, raw, kid, len, done).0);
  }

  lemma HoldsFits(buf: bytes, pos: nat, b: bytes)
    requires Holds(buf, pos, b)
    ensures pos + |b| <= |buf|
  {
  }
}
