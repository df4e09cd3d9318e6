/**
 A list nested on the wire, read flat: all struct chunks from first to last, then
 the rest of each element from last to first. This is the order in which shared
 chassis are visited.
 */
module Chains {
  import opened Bytes
  import opened Marshal
  import opened Unfolding

  /** Types whose first field is the link to the next element. */
  predicate Chained(ty: Ty) {
    !IsLeaf(ty) && |Fields(ty)| > 0 && Fields(ty)[0] == Ptr(0, ty)
  }

  datatype Pod = Pod(orig: nat, raw: bytes)

  /** The struct chunks, in list order, up to the first zero link. */
  function Pods(ty: Ty, buf: bytes, pos: nat): (r: Read<seq<Pod>>)
    requires Chained(ty)
    ensures r.Got? ==> pos <= r.pos <= |buf| && |r.value| > 0
    ensures r.Got? ==> forall i | 0 <= i < |r.value| :: |r.value[i].raw| == Size(ty)
    decreases if pos <= |buf| then |buf| - pos else 0
  {
    var ((orig, raw), p) :- ReadPod(buf, pos, Size(ty));
    if Slot(raw, 0) == 0 then Got([Pod(orig, raw)], p)
    else
      var (rest, q) :- Pods(ty, buf, p);
      Got([Pod(orig, raw)] + rest, q)
  }

  /** The remaining fields, from the last element to the first; `next` is the list behind them. */
  function Bodies(ty: Ty, pods: seq<Pod>, buf: bytes, pos: nat, cache: Cache, next: Kid): (r: Read<Seen<Kid>>)
    requires Chained(ty) && pos <= |buf|
    requires forall i | 0 <= i < |pods| :: |pods[i].raw| == Size(ty)
    decreases |pods|
  {
    if pods == [] then Got(Seen(next, cache), pos)
    else
      var last := pods[|pods| - 1];
      var (s, p) :- Run(ty, 1, last.raw, buf, pos, cache, [next]);
      Bodies(ty, pods[..|pods| - 1], buf, p, s.cache, Child(Node(last.orig, last.raw, s.item)))
  }

  /** The flat reading of a list. */
  function ReadFlat(ty: Ty, buf: bytes, pos: nat, cache: Cache): Read<Seen<Kid>>
    requires Chained(ty)
  {
    var (pods, p) :- Pods(ty, buf, pos);
    Bodies(ty, pods, buf, p, cache, Absent)
  }

  lemma {:induction false} BodiesAppend(ty: Ty, first: Pod, rest: seq<Pod>, buf: bytes, pos: nat, cache: Cache,
                                        next: Kid)
    requires Chained(ty) && pos <= |buf| && |first.raw| == Size(ty)
    requires forall i | 0 <= i < |rest| :: |rest[i].raw| == Size(ty)
    ensures var r := Bodies(ty, rest, buf, pos, cache, next);
            && (r.Got? ==> r.pos <= |buf|)
            && Bodies(ty, [first] + rest, buf, pos, cache, next)
               == if r.Bad? then r else Bodies(ty, [first], buf, r.pos, r.value.cache, r.value.item)
    decreases |rest|
  {
    hide Run, Fields;
    var all := [first] + rest;
    if rest == [] {
      assert all == [first];
    } else {
      var n := |rest| - 1;
      var last := rest[n];
      assert all[|all| - 1] == last && all[..|all| - 1] == [first] + rest[..n];
      var s := Run(ty, 1, last.raw, buf, pos, cache, [next]);
      if s.Got? {
        BodiesAppend(ty, first, rest[..n], buf, s.pos, s.value.cache, Child(Node(last.orig, last.raw, s.value.item)));
      }
    }
  }

  lemma BodiesOne(ty: Ty, pod: Pod, buf: bytes, pos: nat, cache: Cache, next: Kid)
    requires Chained(ty) && pos <= |buf| && |pod.raw| == Size(ty)
    ensures var s := Run(ty, 1, pod.raw, buf, pos, cache, [next]);
            Bodies(ty, [pod], buf, pos, cache, next)
            == if s.Bad? then Bad(s.reason, s.pos) else Got(Seen(Child(Node(pod.orig, pod.raw, s.value.item)), s.value.cache), s.pos)
  {
    hide Run, Fields;
    assert [pod][..0] == [];
  }

  /** The link is read first. */
  lemma LinkFirst(ty: Ty, raw: bytes, buf: bytes, pos: nat, cache: Cache)
    requires Chained(ty) && |raw| == Size(ty) && pos <= |buf|
    ensures var w := Walk(ty, buf, pos, cache);
            var run := Run(ty, 0, raw, buf, pos, cache, []);
            if Slot(raw, 0) == 0 then run == Run(ty, 1, raw, buf, pos, cache, [Absent])
            else if w.Bad? then run == Bad(w.reason, w.pos)
            else run == Run(ty, 1, raw, buf, w.pos, w.value.cache, [Child(w.value.item)])
  {
    hide Walk, Slot, Fields;
    assert [] + [Absent] == [Absent];
    var w := Walk(ty, buf, pos, cache);
    var s := Step(ty, Ptr(0, ty), raw, buf, pos, cache);
    if s.Got? { assert [] + [s.value.item] == [s.value.item]; }
  }

  lemma ChainedFits(ty: Ty)
    requires Chained(ty)
    ensures !IsLeaf(ty) && Size(ty) >= PTR
  {
    assert Fits(Fields(ty)[0], ty);
  }

  /** A read of a tree, as a field that leads to it. */
  function AsKid(w: Read<Seen<Tree>>): Read<Seen<Kid>> {
    match w
    case Bad(reason, p) => Bad(reason, p)
    case Got(s, p) => Got(Seen(Child(s.item), s.cache), p)
  }

  /** A read of the fields of a struct, as a field that leads to it. */
  function AsNode(pod: Pod, run: Read<Seen<seq<Kid>>>): Read<Seen<Kid>> {
    match run
    case Bad(reason, p) => Bad(reason, p)
    case Got(s, p) => Got(Seen(Child(Node(pod.orig, pod.raw, s.item)), s.cache), p)
  }

  /** One element in front of a list that is read flat. */
  lemma NestedFront(ty: Ty, pod: Pod, buf: bytes, pos: nat, cache: Cache)
    requires Chained(ty) && |pod.raw| == Size(ty) && pos <= |buf| && Slot(pod.raw, 0) != 0
    requires ReadFlat(ty, buf, pos, cache) == AsKid(Walk(ty, buf, pos, cache))
    ensures var rest, run := Pods(ty, buf, pos), Run(ty, 0, pod.raw, buf, pos, cache, []);
            && (rest.Bad? ==> run == Bad(rest.reason, rest.pos))
            && (rest.Got? ==> Bodies(ty, [pod] + rest.value, buf, rest.pos, cache, Absent) == AsNode(pod, run))
  {
    hide Run, Walk, Fields, Slot, Chained, Bodies, Pods, Size;
    ChainedFits(ty);
    LinkFirst(ty, pod.raw, buf, pos, cache);
    var rest := Pods(ty, buf, pos);
    if rest.Got? {
      BodiesAppend(ty, pod, rest.value, buf, rest.pos, cache, Absent);
      var w := Walk(ty, buf, pos, cache);
      if w.Got? { BodiesOne(ty, pod, buf, w.pos, w.value.cache, Child(w.value.item)); }
    }
  }

  /** The recursive reading of a nested list is the flat one: same value, cache, position and failure. */
  lemma {:induction false} NestedIsFlat(ty: Ty, buf: bytes, pos: nat, cache: Cache)
    requires Chained(ty)
    ensures ReadFlat(ty, buf, pos, cache) == AsKid(Walk(ty, buf, pos, cache))
    decreases if pos <= |buf| then |buf| - pos else 0
  {
    hide Run, Fields, ReadPod, Slot, Chained, Bodies, Size, ReadFlat, Walk, Pods;
    ChainedFits(ty);
    PodFound(ty, buf, pos, cache);
    var p := ReadPod(buf, pos, Size(ty));
    if p.Got? {
      var pod := Pod(p.value.0, p.value.1);
      if Slot(pod.raw, 0) == 0 {
        LinkFirst(ty, pod.raw, buf, p.pos, cache);
        BodiesOne(ty, pod, buf, p.pos, cache, Absent);
      } else {
        NestedIsFlat(ty, buf, p.pos, cache);
        NestedFront(ty, pod, buf, p.pos, cache);
      }
    }
    FlatStart(ty, buf, pos, cache);
  }

  /** The flat reading, by its first struct. */
  lemma FlatStart(ty: Ty, buf: bytes, pos: nat, cache: Cache)
    requires Chained(ty)
    ensures var p := ReadPod(buf, pos, Size(ty));
            p.Bad? ==> ReadFlat(ty, buf, pos, cache) == Bad(p.reason, p.pos)
    ensures var p := ReadPod(buf, pos, Size(ty));
            p.Got? ==>
              var pod := Pod(p.value.0, p.value.1);
              if Slot(pod.raw, 0) == 0 then ReadFlat(ty, buf, pos, cache) == Bodies(ty, [pod], buf, p.pos, cache, Absent)
              else
                var rest := Pods(ty, buf, p.pos);
                if rest.Bad? then ReadFlat(ty, buf, pos, cache) == Bad(rest.reason, rest.pos)
                else ReadFlat(ty, buf, pos, cache) == Bodies(ty, [pod] + rest.value, buf, rest.pos, cache, Absent)
  {
    hide Fields, ReadPod, Slot, Chained, Bodies, Size;
  }

  // ---------------------------------------------------------------- recursion

  /** How many calls a list's decoder makes from here on: one more for each struct whose link is set. */
  function Levels(ty: Ty, buf: bytes, pos: nat): (n: nat)
    requires Chained(ty)
    ensures n > 0
    decreases if pos <= |buf| then |buf| - pos else 0
  {
    var r := ReadPod(buf, pos, Size(ty));
    if r.Got? && Slot(r.value.1, 0) != 0 then 1 + Levels(ty, buf, r.pos) else 1
  }

  /** Whatever the bytes, accepted or not, each level below the first has used up a whole struct chunk. */
  lemma {:induction false} LevelsBound(ty: Ty, buf: bytes, pos: nat)
    requires Chained(ty) && pos <= |buf|
    ensures (Levels(ty, buf, pos) - 1) * (HEADER + Size(ty)) <= |buf| - pos
    decreases |buf| - pos
  {
    hide ReadPod, Slot, Chained, Size;
    ChainedFits(ty);
    var r := ReadPod(buf, pos, Size(ty));
    if r.Got? && Slot(r.value.1, 0) != 0 {
      LevelsBound(ty, buf, r.pos);
      MulStep(Levels(ty, buf, r.pos) - 1, Levels(ty, buf, r.pos), HEADER + Size(ty));
    }
  }

  /** These are the lists of the protocol. */
  lemma ListsAreChained(ty: Ty)
    ensures Chained(ty) <==> ty in {Iface, Mgmt, Vlan, Ppvid, Pi, NeighborPort}
  {
  }
}
