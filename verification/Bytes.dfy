/** Byte strings, little-endian numbers and alignment. */
module Bytes {

  type byte = b: int | 0 <= b < 256
  type bytes = seq<byte>

  /** Width of `usize` on the 64-bit targets whose struct layouts are modelled. */
  const PTR: nat := 8
  /** Exclusive upper bound of a `usize` on those targets. */
  const WORD_LIMIT: nat := 0x1_0000_0000_0000_0000

  function Pow256(n: nat): (p: nat)
    ensures p > 0
  {
    if n == 0 then 1 else 256 * Pow256(n - 1)
  }

  /** The number a little-endian byte string stands for. */
  function Le(s: bytes): nat {
    if s == [] then 0 else s[0] + 256 * Le(s[1..])
  }

  /** The low `n` bytes of `v`, least significant first. */
  function ToLe(v: nat, n: nat): (s: bytes)
    ensures |s| == n
  {
    if n == 0 then [] else [v % 256] + ToLe(v / 256, n - 1)
  }

  lemma {:induction false} LeOfToLe(v: nat, n: nat)
    requires v < Pow256(n)
    ensures Le(ToLe(v, n)) == v
  {
    if n > 0 {
      LeOfToLe(v / 256, n - 1);
      assert ToLe(v, n)[1..] == ToLe(v / 256, n - 1);
    }
  }

  lemma {:induction false} ToLeOfLe(s: bytes)
    ensures Le(s) < Pow256(|s|)
    ensures ToLe(Le(s), |s|) == s
  {
    if s != [] {
      var tail := s[1..];
      ToLeOfLe(tail);
      LowByte(s[0], Le(tail));
      assert Le(s) == s[0] + 256 * Le(tail) && Pow256(|s|) == 256 * Pow256(|tail|);
      assert ToLe(Le(s), |s|) == [s[0]] + ToLe(Le(tail), |tail|);
      assert s == [s[0]] + tail;
    }
  }

  lemma LowByte(b: byte, q: nat)
    ensures (b + 256 * q) % 256 == b && (b + 256 * q) / 256 == q
  {
  }

  /** A nonzero byte anywhere makes the number nonzero, and only that. */
  lemma {:induction false} LeZero(s: bytes)
    ensures Le(s) == 0 <==> forall i | 0 <= i < |s| :: s[i] == 0
  {
    if s != [] {
      LeZero(s[1..]);
      assert forall i | 0 <= i < |s| - 1 :: s[1..][i] == s[i + 1];
      assert forall i | 1 <= i < |s| :: s[1..][i - 1] == s[i];
    }
  }

  lemma SliceOfSlice(s: bytes, lo: nat, hi: nat, a: nat, b: nat)
    requires lo <= hi <= |s| && a <= b && lo + b <= hi
    ensures s[lo..hi][a..b] == s[lo + a..lo + b]
  {
    var l, r := s[lo..hi][a..b], s[lo + a..lo + b];
    forall i | 0 <= i < |l| ensures l[i] == r[i] {
      assert l[i] == s[lo..hi][a + i] == s[lo + (a + i)];
    }
    assert l == r;
  }

  /** One machine word. */
  function Word(v: nat): (s: bytes)
    ensures |s| == PTR
  {
    ToLe(v, PTR)
  }

  /** The pointer-sized field at offset `off` of a struct's bytes. */
  function Slot(raw: bytes, off: nat): nat
    requires off + PTR <= |raw|
  {
    Le(raw[off..off + PTR])
  }

  lemma WordLimit()
    ensures Pow256(8) == WORD_LIMIT
  {
    assert Pow256(0) == 1;
    assert Pow256(1) == 256;
    assert Pow256(2) == 0x1_0000;
    assert Pow256(3) == 0x100_0000;
    assert Pow256(4) == 0x1_0000_0000;
    assert Pow256(5) == 0x100_0000_0000;
    assert Pow256(6) == 0x1_0000_0000_0000;
    assert Pow256(7) == 0x100_0000_0000_0000;
  }

  /** Exclusive upper bounds of two- and four-byte numbers. */
  const U16_LIMIT: nat := 0x1_0000
  const U32_LIMIT: nat := 0x1_0000_0000

  lemma Widths()
    ensures Pow256(2) == U16_LIMIT && Pow256(4) == U32_LIMIT && Pow256(8) == WORD_LIMIT
  {
    WordLimit();
    assert Pow256(0) == 1 && Pow256(1) == 256 && Pow256(2) == 0x1_0000 && Pow256(3) == 0x100_0000;
  }

  lemma SlotOfWord(buf: bytes, off: nat, v: nat)
    requires off + PTR <= |buf| && v < WORD_LIMIT
    requires buf[off..off + PTR] == Word(v)
    ensures Slot(buf, off) == v
  {
    WordLimit();
    LeOfToLe(v, PTR);
  }

  lemma SlotBound(raw: bytes, off: nat)
    requires off + PTR <= |raw|
    ensures Slot(raw, off) < WORD_LIMIT
  {
    WordLimit();
    ToLeOfLe(raw[off..off + PTR]);
  }

  /** Rounds `len` up to a multiple of `align`, in the source's own arithmetic. */
  function AlignUp(len: nat, align: nat): (r: nat)
    requires align > 0
    ensures len <= r < len + align
  {
    len + (align - len % align) % align
  }

  /** `AlignUp` is the least multiple of the alignment that is not below its input. */
  lemma AlignUpIsLeast(len: nat, align: nat, m: nat)
    requires align > 0
    ensures AlignUp(len, align) % align == 0
    ensures len <= m && m % align == 0 ==> AlignUp(len, align) <= m
  {
    var up := AlignUpQuotient(len, align);
    RemainderIs(up * align, align, up, 0);
    if len <= m && m % align == 0 {
      var k := m / align;
      assert m == k * align + m % align;
      if k < up { MulStep(k, up, align); } else { MulStep(up, k, align); }
    }
  }

  lemma AlignUpQuotient(len: nat, align: nat) returns (up: nat)
    requires align > 0
    ensures AlignUp(len, align) == up * align
  {
    var q, r := len / align, len % align;
    assert len == q * align + r;
    if r == 0 {
      RemainderIs(align, align, 1, 0);
      up := q;
    } else {
      RemainderIs(align - r, align, 0, align - r);
      up := q + 1;
      MulStep(q, up, align);
    }
  }

  /** Quotient and remainder are determined by the division equation. */
  lemma RemainderIs(x: nat, n: nat, q: nat, r: nat)
    requires r < n && x == q * n + r
    ensures x % n == r
  {
    var q', r' := x / n, x % n;
    assert x == q' * n + r';
    if q' < q { MulStep(q', q, n); }
    if q < q' { MulStep(q, q', n); }
  }

  lemma MulStep(a: nat, b: nat, n: nat)
    requires a <= b
    ensures a * n <= b * n
    ensures a < b ==> a * n + n <= b * n
    ensures b == a + 1 ==> b * n == a * n + n
  {
    var d := b - a;
    assert b * n == a * n + d * n;
    if d > 0 { assert d * n == (d - 1) * n + n; }
  }

  /** A slot of an embedded struct is a slot of the struct around it. */
  lemma SlotInside(raw: bytes, lo: nat, hi: nat, off: nat)
    requires lo <= hi <= |raw| && lo + off + PTR <= hi
    ensures Slot(raw[lo..hi], off) == Slot(raw, lo + off)
  {
    hide Le;
    SliceOfSlice(raw, lo, hi, off, off + PTR);
  }

  /** Alignment to the pointer width, relative to an aligned start. */
  lemma AlignWord(start: nat, len: nat)
    requires start % 8 == 0
    ensures AlignUp(start + len, 8) == start + AlignUp(len, 8)
    ensures AlignUp(start + len, 8) % 8 == 0
    ensures AlignUp(start, 8) == start
  {
    assert (start + len) % 8 == len % 8;
    var r := len % 8;
    if r != 0 { assert AlignUp(len, 8) == len + (8 - r); }
  }

  /** The zero bytes that bring `len` up to pointer alignment. */
  function Pad(len: nat): (s: bytes)
    ensures |s| == AlignUp(len, 8) - len
  {
    seq(AlignUp(len, 8) - len, _ => 0)
  }
}
