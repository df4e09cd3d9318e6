/**
 The marshal serializer. Padding is relative to the chunk being built, the
 declared size covers the whole subtree, and a shared chassis is emitted at its
 first occurrence only; `done` is the set of ids emitted so far.
 */
module Emitter {
  import opened Bytes
  import opened Marshal

  function Emit(ty: Ty, t: Tree, done: set<nat>): (r: (bytes, set<nat>))
    requires Wf(ty, t)
    ensures |r.0| >= HEADER + Size(ty)
    decreases t, 0
  {
    if IsLeaf(ty) then (Word(t.orig) + Word(HEADER + |t.body|) + t.body, done)
    else
      var (tail, d) := EmitRun(ty, 0, t.raw, t.kids, HEADER + |t.raw|, done);
      (Word(t.orig) + Word(HEADER + |t.raw| + |tail|) + t.raw + tail, d)
  }

  /** Fields `i..` of a struct, appended to a chunk that is `len` bytes long so far. */
  function EmitRun(ty: Ty, i: nat, raw: bytes, kids: seq<Kid>, len: nat, done: set<nat>): (bytes, set<nat>)
    requires |raw| == Size(ty) && KidsWf(ty, raw, kids) && i <= |kids|
    decreases kids, |kids| - i
  {
    if i == |kids| then ([], done)
    else
      var (b, d) := EmitKid(ty, Fields(ty)[i], raw, kids[i], len, done);
      var (rest, d') := EmitRun(ty, i + 1, raw, kids, len + |b|, d);
      (b + rest, d')
  }

  function EmitKid(ty: Ty, f: Field, raw: bytes, kid: Kid, len: nat, done: set<nat>): (bytes, set<nat>)
    requires |raw| == Size(ty) && Fits(f, ty) && KidWf(ty, f, raw, kid)
    decreases kid, 0
  {
    match f
    case Ptr(_, t) =>
      if kid.Absent? then ([], done)
      else
        var (b, d) := Emit(t, kid.tree, done);
        (Pad(len) + b, d)
    case Shared(off) =>
      var id := Slot(raw, off);
      if kid.Absent? || id in done then ([], done)
      else
        var (b, d) := Emit(ChassisBox, kid.tree, done);
        (Pad(len) + b, d + {id})
    case Sub(off, t) =>
      var (b, d) := EmitRun(t, 0, Inner(raw, off, t), kid.kids, HEADER, done);
      (Pad(len) + (Word(kid.orig) + Word(HEADER + |b|) + b), d)
    case Inline(t) => EmitRun(t, 0, raw, kid.kids, len, done)
    case Check(_, _, _) => ([], done)
  }

  // ---------------------------------------------------------------- sharing

  /** Every use of a shared id carries the chassis the table gives that id. */
  predicate Agrees(ty: Ty, t: Tree, table: Cache)
    requires Wf(ty, t)
    decreases t, 0
  {
    IsLeaf(ty) || KidsAgree(ty, t.raw, t.kids, table)
  }

  predicate KidsAgree(ty: Ty, raw: bytes, kids: seq<Kid>, table: Cache)
    requires |raw| == Size(ty) && KidsWf(ty, raw, kids)
    decreases kids, 0
  {
    forall i | 0 <= i < |kids| :: KidAgrees(ty, Fields(ty)[i], raw, kids[i], table)
  }

  predicate KidAgrees(ty: Ty, f: Field, raw: bytes, kid: Kid, table: Cache)
    requires |raw| == Size(ty) && Fits(f, ty) && KidWf(ty, f, raw, kid)
    decreases kid, 0
  {
    match f
    case Ptr(_, t) => kid.Absent? || Agrees(t, kid.tree, table)
    case Shared(off) =>
      kid.Absent? || (
        && Slot(raw, off) in table
        && table[Slot(raw, off)] == kid.tree
        && Agrees(ChassisBox, kid.tree, table))
    case Sub(off, t) => KidsAgree(t, Inner(raw, off, t), kid.kids, table)
    case Inline(t) => KidsAgree(t, raw, kid.kids, table)
    case Check(_, _, _) => true
  }

  /** The part of the table that has been on the wire. */
  function Known(table: Cache, done: set<nat>): Cache {
    map id | id in table && id in done :: table[id]
  }
}
