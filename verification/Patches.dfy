/** Struct contents written field by field: given bytes at given offsets, zero elsewhere. */
module Patches {
  import opened Bytes
  import opened Marshal
  import opened Layouts

  datatype Patch = Patch(off: nat, data: bytes)

  /** Where the first `i` patches end. */
  function EndOf(ps: seq<Patch>, i: nat): nat
    requires i <= |ps|
  {
    if i == 0 then 0 else ps[i - 1].off + |ps[i - 1].data|
  }

  /** In ascending order, without overlap, inside `size` bytes. */
  predicate Ordered(ps: seq<Patch>, size: nat) {
    && (forall i | 0 <= i < |ps| :: EndOf(ps, i) <= ps[i].off)
    && EndOf(ps, |ps|) <= size
  }

  function Fill(ps: seq<Patch>, size: nat, i: nat): (s: bytes)
    requires Ordered(ps, size) && i <= |ps|
    ensures |s| == EndOf(ps, i)
  {
    if i == 0 then [] else Fill(ps, size, i - 1) + Zeros(ps[i - 1].off - EndOf(ps, i - 1)) + ps[i - 1].data
  }

  function Filled(ps: seq<Patch>, size: nat): (s: bytes)
    requires Ordered(ps, size)
    ensures |s| == size
  {
    Fill(ps, size, |ps|) + Zeros(size - EndOf(ps, |ps|))
  }

  lemma SliceOfPrefix(p: bytes, rest: bytes, lo: nat, hi: nat)
    requires lo <= hi <= |p|
    ensures (p + rest)[lo..hi] == p[lo..hi]
  {
  }

  lemma InOrder(ps: seq<Patch>, size: nat, i: nat)
    requires Ordered(ps, size) && i < |ps|
    ensures EndOf(ps, i) <= ps[i].off
  {
  }

  lemma {:induction false} FillHolds(ps: seq<Patch>, size: nat, k: nat, i: nat)
    requires Ordered(ps, size) && k < i <= |ps|
    ensures ps[k].off + |ps[k].data| <= EndOf(ps, i)
    ensures Fill(ps, size, i)[ps[k].off..ps[k].off + |ps[k].data|] == ps[k].data
    decreases i
  {
    hide Ordered;
    InOrder(ps, size, i - 1);
    if k + 1 < i {
      FillHolds(ps, size, k, i - 1);
      var p, z := Fill(ps, size, i - 1), Zeros(ps[i - 1].off - EndOf(ps, i - 1));
      SliceOfPrefix(p, z, ps[k].off, EndOf(ps, k + 1));
      SliceOfPrefix(p + z, ps[i - 1].data, ps[k].off, EndOf(ps, k + 1));
    }
  }

  /** Every patch is where it was put. */
  lemma FilledHolds(ps: seq<Patch>, size: nat, k: nat)
    requires Ordered(ps, size) && k < |ps|
    ensures ps[k].off + |ps[k].data| <= size
    ensures Filled(ps, size)[ps[k].off..ps[k].off + |ps[k].data|] == ps[k].data
  {
    hide Fill;
    FillHolds(ps, size, k, |ps|);
    SliceOfPrefix(Fill(ps, size, |ps|), Zeros(size - EndOf(ps, |ps|)), ps[k].off, EndOf(ps, k + 1));
  }

  /** Pointer slots read back as the words they were given. */
  lemma FilledSlot(ps: seq<Patch>, size: nat, k: nat, v: nat)
    requires Ordered(ps, size) && k < |ps| && v < WORD_LIMIT && ps[k].data == Word(v)
    ensures ps[k].off + PTR <= size && Slot(Filled(ps, size), ps[k].off) == v
  {
    hide Ordered, Filled, ToLe;
    FilledHolds(ps, size, k);
    SlotOfWord(Filled(ps, size), ps[k].off, v);
  }

  /** Small numbers read back too. */
  lemma FilledNumber(ps: seq<Patch>, size: nat, k: nat, v: nat, n: nat)
    requires Ordered(ps, size) && k < |ps| && v < Pow256(n) && ps[k].data == ToLe(v, n)
    ensures ps[k].off + n <= size && Le(Filled(ps, size)[ps[k].off..ps[k].off + n]) == v
  {
    hide Ordered, Filled, ToLe, Le;
    FilledHolds(ps, size, k);
    LeOfToLe(v, n);
  }

  lemma {:induction false} FillGap(ps: seq<Patch>, size: nat, i: nat, at: nat)
    requires Ordered(ps, size) && i <= |ps| && at < EndOf(ps, i)
    requires forall k | 0 <= k < |ps| :: at < ps[k].off || ps[k].off + |ps[k].data| <= at
    ensures Fill(ps, size, i)[at] == 0
    decreases i
  {
    hide Ordered;
    InOrder(ps, size, i - 1);
    if at < EndOf(ps, i - 1) { FillGap(ps, size, i - 1, at); }
  }

  /** Whatever no patch covers is zero. */
  lemma GapByte(ps: seq<Patch>, size: nat, at: nat)
    requires Ordered(ps, size) && at < size
    requires forall k | 0 <= k < |ps| :: at < ps[k].off || ps[k].off + |ps[k].data| <= at
    ensures Filled(ps, size)[at] == 0
  {
    hide Fill;
    if at < EndOf(ps, |ps|) { FillGap(ps, size, |ps|, at); }
  }

  lemma GapSlot(ps: seq<Patch>, size: nat, off: nat)
    requires Ordered(ps, size) && off + PTR <= size
    requires forall k | 0 <= k < |ps| :: off + PTR <= ps[k].off || ps[k].off + |ps[k].data| <= off
    ensures Slot(Filled(ps, size), off) == 0
  {
    hide Le, Filled, Ordered;
    var slot := Filled(ps, size)[off..off + PTR];
    forall i | 0 <= i < PTR ensures slot[i] == 0 { GapByte(ps, size, off + i); }
    LeZero(slot);
  }

  /** What a pointer slot holds on the sender's side: zero, or some reference number. */
  function Mark(kid: Kid): nat {
    if kid.Absent? then 0 else 1
  }
}
