/**
 What the chassis cache guarantees: it only grows, never rebinds an id, ends up
 holding exactly the ids that occur, and every use of an id carries the chassis
 bound at its first visit.
 */
module Sharing {
  import opened Bytes
  import opened Marshal
  import opened Unfolding
  import opened Emitter
  import opened WellFormed

  predicate Extends(small: Cache, big: Cache) {
    forall id | id in small :: id in big && big[id] == small[id]
  }

  /** The shared ids used anywhere in a tree. */
  function Ids(ty: Ty, t: Tree): set<nat>
    requires Wf(ty, t)
    decreases t, 0
  {
    if IsLeaf(ty) then {} else KidsIds(ty, 0, t.raw, t.kids)
  }

  /** The ids used by fields `i..`. */
  function KidsIds(ty: Ty, i: nat, raw: bytes, kids: seq<Kid>): set<nat>
    requires |raw| == Size(ty) && KidsWf(ty, raw, kids) && i <= |kids|
    decreases kids, |kids| - i
  {
    if i == |kids| then {}
    else KidIds(ty, Fields(ty)[i], raw, kids[i]) + KidsIds(ty, i + 1, raw, kids)
  }

  function KidIds(ty: Ty, f: Field, raw: bytes, kid: Kid): set<nat>
    requires |raw| == Size(ty) && Fits(f, ty) && KidWf(ty, f, raw, kid)
    decreases kid, 0
  {
    match f
    case Ptr(_, t) => if kid.Absent? then {} else Ids(t, kid.tree)
    case Shared(off) => if kid.Absent? then {} else {Slot(raw, off)}
    case Sub(off, t) => KidsIds(t, 0, Inner(raw, off, t), kid.kids)
    case Inline(t) => KidsIds(t, 0, raw, kid.kids)
    case Check(_, _, _) => {}
  }

  // ---------------------------------------------- types without shared fields

  predicate Closed(ty: Ty) {
    match ty
    case PortBody => false
    case LocalPort => false
    case NeighborPort => false
    case NotifiedPort => false
    case Hardware(_) => false
    case ChangeNotice => false
    case _ => true
  }

  predicate FieldClosed(f: Field) {
    match f
    case Ptr(_, t) => Closed(t)
    case Shared(_) => false
    case Sub(_, t) => Closed(t)
    case Inline(t) => Closed(t)
    case Check(_, _, _) => true
  }

  lemma FieldsClosed(ty: Ty)
    requires Closed(ty)
    ensures forall i | 0 <= i < |Fields(ty)| :: FieldClosed(Fields(ty)[i])
  {
  }

  /** A tree of a closed type uses no shared chassis. */
  lemma {:induction false} ClosedAgrees(ty: Ty, t: Tree, table: Cache)
    requires Closed(ty) && Wf(ty, t)
    ensures Agrees(ty, t, table)
    decreases t, 0
  {
    if !IsLeaf(ty) { ClosedKidsAgree(ty, t.raw, t.kids, table); }
  }

  lemma {:induction false} ClosedKidsAgree(ty: Ty, raw: bytes, kids: seq<Kid>, table: Cache)
    requires Closed(ty) && |raw| == Size(ty) && KidsWf(ty, raw, kids)
    ensures KidsAgree(ty, raw, kids, table)
    decreases kids, 0
  {
    hide Fields, Closed, KidWf, KidAgrees, FieldClosed;
    FieldsClosed(ty);
    forall i | 0 <= i < |kids| ensures KidAgrees(ty, Fields(ty)[i], raw, kids[i], table) {
      ClosedKidAgrees(ty, Fields(ty)[i], raw, kids[i], table);
    }
  }

  lemma {:induction false} ClosedKidAgrees(ty: Ty, f: Field, raw: bytes, kid: Kid, table: Cache)
    requires FieldClosed(f) && |raw| == Size(ty) && Fits(f, ty) && KidWf(ty, f, raw, kid)
    ensures KidAgrees(ty, f, raw, kid, table)
    decreases kid, 0
  {
    hide Fields, Closed, Agrees, KidsAgree, KidsWf, Wf, Slot;
    match f
    case Ptr(_, t) => if kid.Child? { ClosedAgrees(t, kid.tree, table); }
    case Sub(off, t) => ClosedKidsAgree(t, Inner(raw, off, t), kid.kids, table);
    case Inline(t) => ClosedKidsAgree(t, raw, kid.kids, table);
    case Check(_, _, _) =>
  }

  lemma {:induction false} ClosedIds(ty: Ty, t: Tree)
    requires Closed(ty) && Wf(ty, t)
    ensures Ids(ty, t) == {}
    decreases t, 0
  {
    hide Closed, KidsIds;
    if !IsLeaf(ty) { ClosedKidsIds(ty, 0, t.raw, t.kids); }
  }

  lemma {:induction false} ClosedKidsIds(ty: Ty, i: nat, raw: bytes, kids: seq<Kid>)
    requires Closed(ty) && |raw| == Size(ty) && KidsWf(ty, raw, kids) && i <= |kids|
    ensures KidsIds(ty, i, raw, kids) == {}
    decreases kids, |kids| - i
  {
    hide Fields, Closed, KidWf, KidIds, FieldClosed;
    FieldsClosed(ty);
    if i < |kids| {
      ClosedKidIds(ty, Fields(ty)[i], raw, kids[i]);
      ClosedKidsIds(ty, i + 1, raw, kids);
    }
  }

  lemma {:induction false} ClosedKidIds(ty: Ty, f: Field, raw: bytes, kid: Kid)
    requires FieldClosed(f) && |raw| == Size(ty) && Fits(f, ty) && KidWf(ty, f, raw, kid)
    ensures KidIds(ty, f, raw, kid) == {}
    decreases kid, 0
  {
    hide Fields, Closed, Ids, KidsIds, KidsWf, Wf, Slot, Inner;
    match f
    case Ptr(_, t) => if kid.Child? { ClosedIds(t, kid.tree); }
    case Sub(off, t) => ClosedKidsIds(t, 0, Inner(raw, off, t), kid.kids);
    case Inline(t) => ClosedKidsIds(t, 0, raw, kid.kids);
    case Check(_, _, _) =>
  }

  /** The same outcome, with another cache passed through. */
  function Recached<T>(r: Read<Seen<T>>, cache: Cache): Read<Seen<T>> {
    match r
    case Bad(reason, pos) => Bad(reason, pos)
    case Got(s, pos) => Got(Seen(s.item, cache), pos)
  }

  /** Reading a closed type neither consults nor changes the cache. */
  lemma {:induction false} ClosedWalk(ty: Ty, buf: bytes, pos: nat, cache: Cache)
    requires Closed(ty)
    ensures Walk(ty, buf, pos, cache) == Recached(Walk(ty, buf, pos, map[]), cache)
    decreases if pos <= |buf| then |buf| - pos else 0, 0, 0, 0
  {
    hide Fields, Run, Closed, ReadPod, ReadLeaf, Size;
    if !IsLeaf(ty) {
      var r := ReadPod(buf, pos, Size(ty));
      if r.Got? { ClosedRun(ty, 0, r.value.1, buf, r.pos, cache, []); }
    }
  }

  lemma {:induction false} ClosedRun(ty: Ty, i: nat, raw: bytes, buf: bytes, pos: nat, cache: Cache, kids: seq<Kid>)
    requires Closed(ty) && |raw| == Size(ty) && i <= |Fields(ty)| && pos <= |buf|
    ensures Run(ty, i, raw, buf, pos, cache, kids) == Recached(Run(ty, i, raw, buf, pos, map[], kids), cache)
    decreases if pos <= |buf| then |buf| - pos else 0, Level(ty), |Fields(ty)| - i, 1
  {
    hide Fields, Closed, Step, FieldClosed, Run;
    FieldsClosed(ty);
    if i == |Fields(ty)| {
      RunEnd(ty, raw, buf, pos, cache, kids);
      RunEnd(ty, raw, buf, pos, map[], kids);
    } else {
      var f := Fields(ty)[i];
      RunNext(ty, i, raw, buf, pos, cache, kids);
      RunNext(ty, i, raw, buf, pos, map[], kids);
      ClosedStep(ty, f, raw, buf, pos, cache);
      ClosedStep(ty, f, raw, buf, pos, map[]);
      var s := Step(ty, f, raw, buf, pos, cache);
      if s.Got? { ClosedRun(ty, i + 1, raw, buf, s.pos, cache, kids + [s.value.item]); }
    }
  }

  lemma {:induction false} ClosedStep(ty: Ty, f: Field, raw: bytes, buf: bytes, pos: nat, cache: Cache)
    requires FieldClosed(f) && |raw| == Size(ty) && Fits(f, ty) && pos <= |buf|
    ensures Step(ty, f, raw, buf, pos, cache) == Recached(Step(ty, f, raw, buf, pos, map[]), cache)
    decreases if pos <= |buf| then |buf| - pos else 0, Level(ty), 0, 0
  {
    hide Fields, Closed, Run, Walk, Slot, ReadHeader, Inner, Step;
    match f
    case Ptr(off, t) =>
      StepPtr(ty, off, t, raw, buf, pos, cache);
      StepPtr(ty, off, t, raw, buf, pos, map[]);
      ClosedWalk(t, buf, pos, cache);
    case Sub(off, t) =>
      StepSub(ty, off, t, raw, buf, pos, cache);
      StepSub(ty, off, t, raw, buf, pos, map[]);
      var h := ReadHeader(buf, pos);
      if h.Got? { ClosedRun(t, 0, Inner(raw, off, t), buf, h.pos, cache, []); }
    case Inline(t) =>
      StepInline(ty, t, raw, buf, pos, cache);
      StepInline(ty, t, raw, buf, pos, map[]);
      ClosedRun(t, 0, raw, buf, pos, cache, []);
    case Check(off, present, reason) => StepCheck(ty, f, raw, buf, pos, cache);
  }

  lemma StepCheck(ty: Ty, f: Field, raw: bytes, buf: bytes, pos: nat, cache: Cache)
    requires f.Check? && |raw| == Size(ty) && Fits(f, ty) && pos <= |buf|
    ensures Step(ty, f, raw, buf, pos, cache) == Recached(Step(ty, f, raw, buf, pos, map[]), cache)
  {
    hide Slot;
  }

  // ------------------------------------------------------- a growing cache

  lemma {:induction false} AgreesGrows(ty: Ty, t: Tree, small: Cache, big: Cache)
    requires Wf(ty, t) && Agrees(ty, t, small) && Extends(small, big)
    ensures Agrees(ty, t, big)
    decreases t, 0
  {
    if !IsLeaf(ty) { KidsAgreeGrow(ty, t.raw, t.kids, small, big); }
  }

  lemma {:induction false} KidsAgreeGrow(ty: Ty, raw: bytes, kids: seq<Kid>, small: Cache, big: Cache)
    requires |raw| == Size(ty) && KidsWf(ty, raw, kids) && KidsAgree(ty, raw, kids, small) && Extends(small, big)
    ensures KidsAgree(ty, raw, kids, big)
    decreases kids, 0
  {
    hide Fields, KidAgrees, KidWf;
    forall i | 0 <= i < |kids| ensures KidAgrees(ty, Fields(ty)[i], raw, kids[i], big) {
      KidAgreesGrows(ty, Fields(ty)[i], raw, kids[i], small, big);
    }
  }

  lemma {:induction false} KidAgreesGrows(ty: Ty, f: Field, raw: bytes, kid: Kid, small: Cache, big: Cache)
    requires |raw| == Size(ty) && Fits(f, ty) && KidWf(ty, f, raw, kid)
    requires KidAgrees(ty, f, raw, kid, small) && Extends(small, big)
    ensures KidAgrees(ty, f, raw, kid, big)
    decreases kid, 0
  {
    hide Fields, Agrees, KidsAgree, KidsWf, Wf, Slot;
    match f
    case Ptr(_, t) => if kid.Child? { AgreesGrows(t, kid.tree, small, big); }
    case Shared(_) => if kid.Child? { AgreesGrows(ChassisBox, kid.tree, small, big); }
    case Sub(off, t) => KidsAgreeGrow(t, Inner(raw, off, t), kid.kids, small, big);
    case Inline(t) => KidsAgreeGrow(t, raw, kid.kids, small, big);
    case Check(_, _, _) =>
  }

  // ------------------------------------------------------------ main result

  /** The cache after a read, compared with the one before and with what was read. */
  lemma {:induction false} WalkShares(ty: Ty, buf: bytes, pos: nat, cache: Cache)
    requires CacheWf(cache) && Walk(ty, buf, pos, cache).Got?
    ensures var s := Walk(ty, buf, pos, cache).value;
            && Wf(ty, s.item)
            && CacheWf(s.cache)
            && Extends(cache, s.cache)
            && Agrees(ty, s.item, s.cache)
            && s.cache.Keys == cache.Keys + Ids(ty, s.item)
    decreases if pos <= |buf| then |buf| - pos else 0, 0, 0, 0
  {
    hide Fields, Run, KidsWf, CacheWf, ReadPod, ReadLeaf, KidsAgree, KidsIds, Size;
    WalkWf(ty, buf, pos, cache);
    if !IsLeaf(ty) {
      var r := ReadPod(buf, pos, Size(ty));
      RunShares(ty, 0, r.value.1, buf, r.pos, cache, []);
    }
  }

  /** The fields read so far, judged against a cache. */
  predicate SoFar(ty: Ty, raw: bytes, kids: seq<Kid>, cache: Cache)
    requires |raw| == Size(ty)
  {
    && |kids| <= |Fields(ty)|
    && forall j | 0 <= j < |kids| ::
      KidWf(ty, Fields(ty)[j], raw, kids[j]) && KidAgrees(ty, Fields(ty)[j], raw, kids[j], cache)
  }

  lemma SoFarGrows(ty: Ty, raw: bytes, kids: seq<Kid>, kid: Kid, small: Cache, big: Cache)
    requires |raw| == Size(ty) && SoFar(ty, raw, kids, small) && Extends(small, big) && |kids| < |Fields(ty)|
    requires KidWf(ty, Fields(ty)[|kids|], raw, kid) && KidAgrees(ty, Fields(ty)[|kids|], raw, kid, big)
    ensures SoFar(ty, raw, kids + [kid], big)
  {
    hide Fields, KidAgrees, KidWf, Extends;
    forall j | 0 <= j < |kids| ensures KidAgrees(ty, Fields(ty)[j], raw, kids[j], big) {
      KidAgreesGrows(ty, Fields(ty)[j], raw, kids[j], small, big);
    }
  }

  lemma {:induction false} RunShares(ty: Ty, i: nat, raw: bytes, buf: bytes, pos: nat, cache: Cache, kids: seq<Kid>)
    requires |raw| == Size(ty) && |kids| == i <= |Fields(ty)| && pos <= |buf| && CacheWf(cache)
    requires SoFar(ty, raw, kids, cache)
    requires Run(ty, i, raw, buf, pos, cache, kids).Got?
    ensures var s := Run(ty, i, raw, buf, pos, cache, kids).value;
            && KidsWf(ty, raw, s.item)
            && CacheWf(s.cache)
            && Extends(cache, s.cache)
            && KidsAgree(ty, raw, s.item, s.cache)
            && s.cache.Keys == cache.Keys + KidsIds(ty, i, raw, s.item)
    decreases if pos <= |buf| then |buf| - pos else 0, Level(ty), |Fields(ty)| - i, 1
  {
    hide Fields, Step, KidWf, CacheWf, KidAgrees, KidIds;
    if i < |Fields(ty)| {
      var f := Fields(ty)[i];
      var s := Step(ty, f, raw, buf, pos, cache);
      StepShares(ty, f, raw, buf, pos, cache);
      var kids' := kids + [s.value.item];
      SoFarGrows(ty, raw, kids, s.value.item, cache, s.value.cache);
      RunShares(ty, i + 1, raw, buf, s.pos, s.value.cache, kids');
      RunPrefix(ty, i + 1, raw, buf, s.pos, s.value.cache, kids');
      var item := Run(ty, i, raw, buf, pos, cache, kids).value.item;
      assert item[i] == item[..i + 1][i] == s.value.item;
    }
  }

  lemma {:induction false} StepShares(ty: Ty, f: Field, raw: bytes, buf: bytes, pos: nat, cache: Cache)
    requires |raw| == Size(ty) && Fits(f, ty) && pos <= |buf| && CacheWf(cache)
    requires Step(ty, f, raw, buf, pos, cache).Got?
    ensures var s := Step(ty, f, raw, buf, pos, cache).value;
            && KidWf(ty, f, raw, s.item)
            && CacheWf(s.cache)
            && Extends(cache, s.cache)
            && KidAgrees(ty, f, raw, s.item, s.cache)
            && s.cache.Keys == cache.Keys + KidIds(ty, f, raw, s.item)
    decreases if pos <= |buf| then |buf| - pos else 0, Level(ty), 0, 0
  {
    hide Fields, Run, Walk, KidsWf, Slot, ReadHeader, Wf, Agrees, Ids, Closed, Inner;
    StepWf(ty, f, raw, buf, pos, cache);
    match f
    case Ptr(off, t) => if Slot(raw, off) != 0 { WalkShares(t, buf, pos, cache); }
    case Shared(off) => SharedShares(ty, off, raw, buf, pos, cache);
    case Sub(off, t) =>
      RunShares(t, 0, Inner(raw, off, t), buf, ReadHeader(buf, pos).pos, cache, []);
    case Inline(t) => RunShares(t, 0, raw, buf, pos, cache, []);
    case Check(_, _, _) =>
  }

  lemma SharedShares(ty: Ty, off: nat, raw: bytes, buf: bytes, pos: nat, cache: Cache)
    requires |raw| == Size(ty) && off + PTR <= |raw| && pos <= |buf| && CacheWf(cache)
    requires Step(ty, Shared(off), raw, buf, pos, cache).Got?
    ensures var s := Step(ty, Shared(off), raw, buf, pos, cache).value;
            && KidWf(ty, Shared(off), raw, s.item)
            && Extends(cache, s.cache)
            && KidAgrees(ty, Shared(off), raw, s.item, s.cache)
            && s.cache.Keys == cache.Keys + KidIds(ty, Shared(off), raw, s.item)
  {
    hide Walk, Agrees, Slot, Wf;
    var f := Shared(off);
    StepWf(ty, f, raw, buf, pos, cache);
    ClosedWalk(ChassisBox, buf, pos, cache);
    var s := Step(ty, f, raw, buf, pos, cache).value;
    if s.item.Child? { ClosedAgrees(ChassisBox, s.item.tree, s.cache); }
  }
}
