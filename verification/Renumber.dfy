/**
 The sender's numbering. Chunks are numbered 1, 2, 3, ... in the order they are
 written, a machine word each; a chassis keeps the number of its first occurrence.
 Numbering changes nothing a tree says.
 */
module Renumber {
  import opened Bytes
  import opened Marshal
  import opened Emitter
  import opened WellFormed
  import opened Sharing
  import opened Numbering

  datatype Numbered<+T> = Numbered(item: T, next: nat, seen: Cache)

  function Mod(n: nat): nat {
    n % WORD_LIMIT
  }

  function Number(ty: Ty, t: Tree, n: nat, seen: Cache): (r: Numbered<Tree>)
    requires Wf(ty, t)
    decreases t, 0
  {
    if IsLeaf(ty) then Numbered(Leaf(Mod(n), t.body), n + 1, seen)
    else
      var r := NumberRun(ty, 0, t.raw, t.kids, n + 1, seen);
      Numbered(Node(Mod(n), t.raw, r.item), r.next, r.seen)
  }

  function NumberRun(ty: Ty, i: nat, raw: bytes, kids: seq<Kid>, n: nat, seen: Cache): (r: Numbered<seq<Kid>>)
    requires |raw| == Size(ty) && KidsWf(ty, raw, kids) && i <= |kids|
    ensures |r.item| == |kids| - i
    decreases kids, |kids| - i
  {
    if i == |kids| then Numbered([], n, seen)
    else
      var k := NumberKid(ty, Fields(ty)[i], raw, kids[i], n, seen);
      var rest := NumberRun(ty, i + 1, raw, kids, k.next, k.seen);
      Numbered([k.item] + rest.item, rest.next, rest.seen)
  }

  function NumberKid(ty: Ty, f: Field, raw: bytes, kid: Kid, n: nat, seen: Cache): (r: Numbered<Kid>)
    requires |raw| == Size(ty) && Fits(f, ty) && KidWf(ty, f, raw, kid)
    decreases kid, 0
  {
    match f
    case Ptr(_, t) =>
      if kid.Absent? then Numbered(kid, n, seen)
      else
        var r := Number(t, kid.tree, n, seen);
        Numbered(Child(r.item), r.next, r.seen)
    case Shared(off) =>
      var id := Slot(raw, off);
      if kid.Absent? then Numbered(kid, n, seen)
      else if id in seen then Numbered(Child(seen[id]), n, seen)
      else
        var r := Number(ChassisBox, kid.tree, n, seen);
        Numbered(Child(r.item), r.next, r.seen[id := r.item])
    case Sub(off, t) =>
      var r := NumberRun(t, 0, Inner(raw, off, t), kid.kids, n + 1, seen);
      Numbered(Marked(Mod(n), r.item), r.next, r.seen)
    case Inline(t) =>
      var r := NumberRun(t, 0, raw, kid.kids, n, seen);
      Numbered(Group(r.item), r.next, r.seen)
    case Check(_, _, _) => Numbered(kid, n, seen)
  }

  // ------------------------------------------------ well formed, sharing kept

  /** Fields `i..` of a struct, on their own. */
  predicate SuffixWf(ty: Ty, i: nat, raw: bytes, kids: seq<Kid>)
    requires |raw| == Size(ty)
  {
    i + |kids| == |Fields(ty)| && forall j | 0 <= j < |kids| :: KidWf(ty, Fields(ty)[i + j], raw, kids[j])
  }

  predicate SuffixAgrees(ty: Ty, i: nat, raw: bytes, kids: seq<Kid>, table: Cache)
    requires |raw| == Size(ty) && SuffixWf(ty, i, raw, kids)
  {
    forall j | 0 <= j < |kids| :: KidAgrees(ty, Fields(ty)[i + j], raw, kids[j], table)
  }

  lemma WholeSuffix(ty: Ty, raw: bytes, kids: seq<Kid>, table: Cache)
    requires |raw| == Size(ty) && SuffixWf(ty, 0, raw, kids)
    ensures KidsWf(ty, raw, kids)
    ensures SuffixAgrees(ty, 0, raw, kids, table) ==> KidsAgree(ty, raw, kids, table)
  {
    hide Fields, KidWf, KidAgrees;
    forall j | 0 <= j < |kids| ensures KidWf(ty, Fields(ty)[j], raw, kids[j]) {
      assert KidWf(ty, Fields(ty)[0 + j], raw, kids[j]);
    }
    if SuffixAgrees(ty, 0, raw, kids, table) {
      forall j | 0 <= j < |kids| ensures KidAgrees(ty, Fields(ty)[j], raw, kids[j], table) {
        assert KidAgrees(ty, Fields(ty)[0 + j], raw, kids[j], table);
      }
    }
  }

  lemma ConsSuffix(ty: Ty, i: nat, raw: bytes, kid: Kid, rest: seq<Kid>, small: Cache, table: Cache)
    requires |raw| == Size(ty) && i < |Fields(ty)| && SuffixWf(ty, i + 1, raw, rest)
    requires KidWf(ty, Fields(ty)[i], raw, kid) && KidAgrees(ty, Fields(ty)[i], raw, kid, small) && Extends(small, table)
    requires SuffixAgrees(ty, i + 1, raw, rest, table)
    ensures SuffixWf(ty, i, raw, [kid] + rest) && SuffixAgrees(ty, i, raw, [kid] + rest, table)
  {
    hide Fields, KidWf, KidAgrees, Extends;
    var all := [kid] + rest;
    KidAgreesGrows(ty, Fields(ty)[i], raw, kid, small, table);
    forall j | 0 <= j < |all|
      ensures KidWf(ty, Fields(ty)[i + j], raw, all[j]) && KidAgrees(ty, Fields(ty)[i + j], raw, all[j], table)
    {
      if j > 0 { assert KidWf(ty, Fields(ty)[i + 1 + (j - 1)], raw, rest[j - 1]); }
    }
  }

  lemma {:induction false} NumberShares(ty: Ty, t: Tree, n: nat, seen: Cache)
    requires Wf(ty, t) && CacheWf(seen)
    ensures var r := Number(ty, t, n, seen);
            Wf(ty, r.item) && CacheWf(r.seen) && Extends(seen, r.seen) && Agrees(ty, r.item, r.seen)
    decreases t, 0
  {
    hide Fields, NumberRun, KidsWf, CacheWf, KidsAgree, SuffixWf, SuffixAgrees;
    if !IsLeaf(ty) {
      RunNumberShares(ty, 0, t.raw, t.kids, n + 1, seen);
      var r := NumberRun(ty, 0, t.raw, t.kids, n + 1, seen);
      WholeSuffix(ty, t.raw, r.item, r.seen);
    }
  }

  lemma {:induction false} RunNumberShares(ty: Ty, i: nat, raw: bytes, kids: seq<Kid>, n: nat, seen: Cache)
    requires |raw| == Size(ty) && KidsWf(ty, raw, kids) && i <= |kids| && CacheWf(seen)
    ensures var r := NumberRun(ty, i, raw, kids, n, seen);
            && SuffixWf(ty, i, raw, r.item) && CacheWf(r.seen) && Extends(seen, r.seen)
            && SuffixAgrees(ty, i, raw, r.item, r.seen)
    decreases kids, |kids| - i
  {
    hide Fields, NumberKid, KidWf, CacheWf, KidAgrees;
    if i < |kids| {
      var k := NumberKid(ty, Fields(ty)[i], raw, kids[i], n, seen);
      KidNumberShares(ty, Fields(ty)[i], raw, kids[i], n, seen);
      RunNumberShares(ty, i + 1, raw, kids, k.next, k.seen);
      var rest := NumberRun(ty, i + 1, raw, kids, k.next, k.seen);
      ConsSuffix(ty, i, raw, k.item, rest.item, k.seen, rest.seen);
    }
  }

  lemma {:induction false} KidNumberShares(ty: Ty, f: Field, raw: bytes, kid: Kid, n: nat, seen: Cache)
    requires |raw| == Size(ty) && Fits(f, ty) && KidWf(ty, f, raw, kid) && CacheWf(seen)
    ensures var r := NumberKid(ty, f, raw, kid, n, seen);
            KidWf(ty, f, raw, r.item) && CacheWf(r.seen) && Extends(seen, r.seen) && KidAgrees(ty, f, raw, r.item, r.seen)
    decreases kid, 1
  {
    hide Fields, Number, NumberRun, KidsWf, Wf, Agrees, KidsAgree, Slot, Inner, SuffixWf, SuffixAgrees;
    match f
    case Ptr(_, t) => if kid.Child? { NumberShares(t, kid.tree, n, seen); }
    case Shared(off) => SharedNumberShares(ty, off, raw, kid, n, seen);
    case Sub(off, t) =>
      RunNumberShares(t, 0, Inner(raw, off, t), kid.kids, n + 1, seen);
      var r := NumberRun(t, 0, Inner(raw, off, t), kid.kids, n + 1, seen);
      WholeSuffix(t, Inner(raw, off, t), r.item, r.seen);
    case Inline(t) =>
      RunNumberShares(t, 0, raw, kid.kids, n, seen);
      var r := NumberRun(t, 0, raw, kid.kids, n, seen);
      WholeSuffix(t, raw, r.item, r.seen);
    case Check(_, _, _) =>
  }

  lemma {:induction false} SharedNumberShares(ty: Ty, off: nat, raw: bytes, kid: Kid, n: nat, seen: Cache)
    requires |raw| == Size(ty) && off + PTR <= |raw| && KidWf(ty, Shared(off), raw, kid) && CacheWf(seen)
    ensures var r := NumberKid(ty, Shared(off), raw, kid, n, seen);
            && KidWf(ty, Shared(off), raw, r.item) && CacheWf(r.seen) && Extends(seen, r.seen)
            && KidAgrees(ty, Shared(off), raw, r.item, r.seen)
    decreases kid, 0
  {
    hide Fields, Number, Wf, Agrees, Slot;
    if kid.Child? {
      var id := Slot(raw, off);
      if id in seen {
        ClosedAgrees(ChassisBox, seen[id], seen);
      } else {
        NumberShares(ChassisBox, kid.tree, n, seen);
        NumberClosed(ChassisBox, kid.tree, n, seen);
        var r := Number(ChassisBox, kid.tree, n, seen);
        ClosedAgrees(ChassisBox, r.item, r.seen[id := r.item]);
      }
    }
  }

  /** Numbering a closed type leaves the cache alone. */
  lemma {:induction false} NumberClosed(ty: Ty, t: Tree, n: nat, seen: Cache)
    requires Wf(ty, t) && Closed(ty)
    ensures Number(ty, t, n, seen).seen == seen
    decreases t, 0
  {
    hide Closed, NumberRun;
    if !IsLeaf(ty) { RunNumberClosed(ty, 0, t.raw, t.kids, n + 1, seen); }
  }

  lemma {:induction false} RunNumberClosed(ty: Ty, i: nat, raw: bytes, kids: seq<Kid>, n: nat, seen: Cache)
    requires |raw| == Size(ty) && KidsWf(ty, raw, kids) && i <= |kids| && Closed(ty)
    ensures NumberRun(ty, i, raw, kids, n, seen).seen == seen
    decreases kids, |kids| - i
  {
    hide Fields, Closed, NumberKid, KidWf, FieldClosed;
    FieldsClosed(ty);
    if i < |kids| {
      var k := NumberKid(ty, Fields(ty)[i], raw, kids[i], n, seen);
      KidNumberClosed(ty, Fields(ty)[i], raw, kids[i], n, seen);
      RunNumberClosed(ty, i + 1, raw, kids, k.next, k.seen);
    }
  }

  lemma {:induction false} KidNumberClosed(ty: Ty, f: Field, raw: bytes, kid: Kid, n: nat, seen: Cache)
    requires |raw| == Size(ty) && Fits(f, ty) && KidWf(ty, f, raw, kid) && FieldClosed(f)
    ensures NumberKid(ty, f, raw, kid, n, seen).seen == seen
    decreases kid, 0
  {
    hide Fields, Closed, Number, NumberRun, KidsWf, Wf, Slot, Inner;
    match f
    case Ptr(_, t) => if kid.Child? { NumberClosed(t, kid.tree, n, seen); }
    case Sub(off, t) => RunNumberClosed(t, 0, Inner(raw, off, t), kid.kids, n + 1, seen);
    case Inline(t) => RunNumberClosed(t, 0, raw, kid.kids, n, seen);
    case Check(_, _, _) =>
  }

  // ------------------------------------------------------------- in wire order

  /** The numbers `n`, `n + 1`, ... */
  function From(n: nat, count: nat): (s: seq<nat>)
    ensures |s| == count
  {
    seq<nat>(count, k requires 0 <= k < count => Mod(n + k))
  }

  lemma FromSplit(n: nat, a: nat, b: nat)
    ensures From(n, a + b) == From(n, a) + From(n + a, b)
  {
    var l, r := From(n, a + b), From(n, a) + From(n + a, b);
    forall k | 0 <= k < a + b ensures l[k] == r[k] {
      if k >= a { assert n + a + (k - a) == n + k; }
    }
  }

  lemma {:induction false} NumberOrigs(ty: Ty, t: Tree, n: nat, seen: Cache)
    requires Wf(ty, t) && CacheWf(seen)
    ensures var r := Number(ty, t, n, seen);
            && n <= r.next && Wf(ty, r.item)
            && Origs(ty, r.item, seen.Keys) == From(n, r.next - n)
            && Emit(ty, r.item, seen.Keys).1 == r.seen.Keys
    decreases t, 0
  {
    hide Fields, NumberRun, KidsWf, CacheWf, OrigsRun, EmitRun, Word;
    NumberShares(ty, t, n, seen);
    FromSplit(n, 1, 0);
    if !IsLeaf(ty) {
      var r := NumberRun(ty, 0, t.raw, t.kids, n + 1, seen);
      assert [] + r.item == r.item;
      RunNumberOrigs(ty, 0, t.raw, t.kids, [], n + 1, seen, HEADER + |t.raw|);
      FromSplit(n, 1, r.next - n - 1);
    }
  }

  /** Fields `i..`, numbered behind the fields that have been. */
  lemma {:induction false} RunNumberOrigs(ty: Ty, i: nat, raw: bytes, kids: seq<Kid>, before: seq<Kid>,
                                         n: nat, seen: Cache, len: nat)
    requires |raw| == Size(ty) && KidsWf(ty, raw, kids) && |before| == i <= |kids| && CacheWf(seen)
    requires KidsWf(ty, raw, before + NumberRun(ty, i, raw, kids, n, seen).item)
    ensures var r := NumberRun(ty, i, raw, kids, n, seen);
            && n <= r.next
            && OrigsRun(ty, i, raw, before + r.item, len, seen.Keys) == From(n, r.next - n)
            && EmitRun(ty, i, raw, before + r.item, len, seen.Keys).1 == r.seen.Keys
    decreases kids, |kids| - i
  {
    hide Fields, NumberKid, KidsWf, KidWf, CacheWf, KidAgrees, OrigsRun, EmitRun, OrigsKid, EmitKid;
    var r := NumberRun(ty, i, raw, kids, n, seen);
    KidsLength(ty, raw, kids);
    if i == |kids| {
      assert before + r.item == before;
      NothingLeft(ty, raw, before, len, seen.Keys);
    } else {
      var f := Fields(ty)[i];
      KidsWfAt(ty, raw, kids, i);
      var k := NumberKid(ty, f, raw, kids[i], n, seen);
      var full := before + r.item;
      assert full[i] == k.item;
      KidNumberShares(ty, f, raw, kids[i], n, seen);
      KidNumberOrigs(ty, f, raw, kids[i], n, seen, len);
      RunHead(ty, i, raw, full, len, seen.Keys);
      var b := EmitKid(ty, f, raw, k.item, len, seen.Keys).0;
      assert full == (before + [k.item]) + NumberRun(ty, i + 1, raw, kids, k.next, k.seen).item;
      RunNumberOrigs(ty, i + 1, raw, kids, before + [k.item], k.next, k.seen, len + |b|);
      FromSplit(n, k.next - n, r.next - k.next);
    }
  }

  lemma KidsLength(ty: Ty, raw: bytes, kids: seq<Kid>)
    requires |raw| == Size(ty) && KidsWf(ty, raw, kids)
    ensures |kids| == |Fields(ty)|
  {
    hide Fields, KidWf;
  }

  lemma KidsWfAt(ty: Ty, raw: bytes, kids: seq<Kid>, i: nat)
    requires |raw| == Size(ty) && KidsWf(ty, raw, kids) && i < |kids|
    ensures |kids| == |Fields(ty)| && KidWf(ty, Fields(ty)[i], raw, kids[i])
  {
    hide Fields, KidWf;
  }

  lemma {:induction false} KidNumberOrigs(ty: Ty, f: Field, raw: bytes, kid: Kid, n: nat, seen: Cache, len: nat)
    requires |raw| == Size(ty) && Fits(f, ty) && KidWf(ty, f, raw, kid) && CacheWf(seen)
    ensures var r := NumberKid(ty, f, raw, kid, n, seen);
            && n <= r.next && KidWf(ty, f, raw, r.item)
            && OrigsKid(ty, f, raw, r.item, len, seen.Keys) == From(n, r.next - n)
            && EmitKid(ty, f, raw, r.item, len, seen.Keys).1 == r.seen.Keys
    decreases kid, 1
  {
    hide Fields, Number, NumberRun, KidsWf, Wf, Slot, Inner, OrigsRun, EmitRun, Origs, Emit, Word, Pad, SuffixWf, CacheWf;
    KidNumberShares(ty, f, raw, kid, n, seen);
    match f
    case Ptr(_, t) => if kid.Child? { NumberOrigs(t, kid.tree, n, seen); }
    case Shared(off) => if kid.Child? { NumberOrigs(ChassisBox, kid.tree, n, seen); }
    case Sub(off, t) =>
      var r := NumberRun(t, 0, Inner(raw, off, t), kid.kids, n + 1, seen);
      assert [] + r.item == r.item;
      RunNumberOrigs(t, 0, Inner(raw, off, t), kid.kids, [], n + 1, seen, HEADER);
      FromSplit(n, 1, r.next - n - 1);
    case Inline(t) =>
      var r := NumberRun(t, 0, raw, kid.kids, n, seen);
      assert [] + r.item == r.item;
      RunNumberOrigs(t, 0, raw, kid.kids, [], n, seen, len);
    case Check(_, _, _) =>
  }

  // ------------------------------------------------- every number costs a header

  lemma {:induction false} OrigsFit(ty: Ty, t: Tree, done: set<nat>)
    requires Wf(ty, t)
    ensures HEADER * |Origs(ty, t, done)| <= |Emit(ty, t, done).0|
    decreases t, 0
  {
    hide Fields, KidsWf, OrigsRun, EmitRun, ToLe;
    if !IsLeaf(ty) { RunOrigsFit(ty, 0, t.raw, t.kids, HEADER + |t.raw|, done); }
  }

  lemma {:induction false} RunOrigsFit(ty: Ty, i: nat, raw: bytes, kids: seq<Kid>, len: nat, done: set<nat>)
    requires |raw| == Size(ty) && KidsWf(ty, raw, kids) && i <= |kids|
    ensures HEADER * |OrigsRun(ty, i, raw, kids, len, done)| <= |EmitRun(ty, i, raw, kids, len, done).0|
    decreases kids, |kids| - i
  {
    hide Fields, KidsWf, KidWf, OrigsRun, EmitRun, OrigsKid, EmitKid;
    if i == |kids| {
      NothingLeft(ty, raw, kids, len, done);
    } else {
      RunHead(ty, i, raw, kids, len, done);
      KidOrigsFit(ty, Fields(ty)[i], raw, kids[i], len, done);
      var (b, d) := EmitKid(ty, Fields(ty)[i], raw, kids[i], len, done);
      RunOrigsFit(ty, i + 1, raw, kids, len + |b|, d);
    }
  }

  lemma {:induction false} KidOrigsFit(ty: Ty, f: Field, raw: bytes, kid: Kid, len: nat, done: set<nat>)
    requires |raw| == Size(ty) && Fits(f, ty) && KidWf(ty, f, raw, kid)
    ensures HEADER * |OrigsKid(ty, f, raw, kid, len, done)| <= |EmitKid(ty, f, raw, kid, len, done).0|
    decreases kid, 0
  {
    hide Fields, KidsWf, Wf, Slot, Inner, OrigsRun, EmitRun, Origs, Emit, ToLe, AlignUp;
    match f
    case Ptr(_, t) => if kid.Child? { OrigsFit(t, kid.tree, done); }
    case Shared(off) => if kid.Child? { OrigsFit(ChassisBox, kid.tree, done); }
    case Sub(off, t) => RunOrigsFit(t, 0, Inner(raw, off, t), kid.kids, HEADER, done);
    case Inline(t) => RunOrigsFit(t, 0, raw, kid.kids, len, done);
    case Check(_, _, _) =>
  }
}
