/**
 The C struct layout rule, and the structs of the protocol laid out by it: every
 size and offset of module Raw is computed here from the field declarations.
 */
module Layouts {
  import opened Bytes
  import opened Raw

  type Align = a: nat | a > 0 witness 1

  /** A field type: how many bytes, on which boundary. */
  datatype CType = CType(size: nat, align: Align)

  /** An array, laid out as its elements: sizes are multiples of alignments. */
  function Many(n: nat, t: CType): CType {
    CType(n * t.size, t.align)
  }

  /** Where the first `i` fields end. */
  function End(fs: seq<CType>, i: nat): nat
    requires i <= |fs|
    decreases i, 0
  {
    if i == 0 then 0 else Offset(fs, i - 1) + fs[i - 1].size
  }

  /** Each field starts at the next multiple of its own alignment. */
  function Offset(fs: seq<CType>, i: nat): nat
    requires i < |fs|
    decreases i, 1
  {
    AlignUp(End(fs, i), fs[i].align)
  }

  function MaxAlign(fs: seq<CType>): (m: Align)
    ensures forall i | 0 <= i < |fs| :: fs[i].align <= m
    ensures m == 1 || exists i | 0 <= i < |fs| :: fs[i].align == m
  {
    if fs == [] then 1
    else
      var m := MaxAlign(fs[..|fs| - 1]);
      assert forall i | 0 <= i < |fs| - 1 :: fs[i] == fs[..|fs| - 1][i];
      if fs[|fs| - 1].align > m then fs[|fs| - 1].align else m
  }

  function SizeOf(fs: seq<CType>): nat {
    AlignUp(End(fs, |fs|), MaxAlign(fs))
  }

  // ------------------------------------------------------------ general facts

  lemma {:induction false} Monotone(fs: seq<CType>, i: nat, j: nat)
    requires i < j <= |fs|
    ensures Offset(fs, i) + fs[i].size <= End(fs, j)
    ensures j < |fs| ==> Offset(fs, i) + fs[i].size <= Offset(fs, j)
    decreases j
  {
    if i + 1 < j { Monotone(fs, i, j - 1); }
  }

  /** Every field is aligned and inside the struct, whose size is a multiple of its alignment. */
  lemma LayoutIsSound(fs: seq<CType>, i: nat)
    requires i < |fs|
    ensures Offset(fs, i) % fs[i].align == 0
    ensures Offset(fs, i) + fs[i].size <= SizeOf(fs)
    ensures SizeOf(fs) % MaxAlign(fs) == 0 && fs[i].align <= MaxAlign(fs)
  {
    hide MaxAlign, AlignUp;
    AlignUpIsLeast(End(fs, i), fs[i].align, 0);
    AlignUpIsLeast(End(fs, |fs|), MaxAlign(fs), 0);
    Monotone(fs, i, |fs|);
  }

  /** Fields are in order and do not overlap. */
  lemma FieldsAreDisjoint(fs: seq<CType>, i: nat, j: nat)
    requires i < j < |fs|
    ensures Offset(fs, i) + fs[i].size <= Offset(fs, j)
  {
    Monotone(fs, i, j);
  }

  lemma SizeCovers(fs: seq<CType>)
    ensures End(fs, |fs|) <= SizeOf(fs)
  {
    hide MaxAlign;
  }

  /** A struct as the type of a field. */
  function StructType(fs: seq<CType>): CType {
    CType(SizeOf(fs), MaxAlign(fs))
  }

  function Zeros(n: nat): (s: bytes)
    ensures |s| == n
  {
    seq(n, _ => 0)
  }

  /** The first `i` fields of a struct value, padding zeroed. */
  function Put(fs: seq<CType>, vals: seq<nat>, i: nat): (s: bytes)
    requires |vals| == |fs| && i <= |fs|
    ensures |s| == End(fs, i)
  {
    if i == 0 then []
    else Put(fs, vals, i - 1) + Zeros(Offset(fs, i - 1) - End(fs, i - 1)) + ToLe(vals[i - 1], fs[i - 1].size)
  }

  /** A struct value's bytes. */
  function PodBytes(fs: seq<CType>, vals: seq<nat>): (s: bytes)
    requires |vals| == |fs|
    ensures |s| == SizeOf(fs)
  {
    SizeCovers(fs);
    Put(fs, vals, |fs|) + Zeros(SizeOf(fs) - End(fs, |fs|))
  }

  lemma FieldInside(fs: seq<CType>, i: nat)
    requires i < |fs|
    ensures Offset(fs, i) + fs[i].size <= SizeOf(fs)
  {
    hide MaxAlign;
    Monotone(fs, i, |fs|);
  }

  /** Field `i` read back from a struct's bytes. */
  function FieldOf(raw: bytes, fs: seq<CType>, i: nat): nat
    requires i < |fs| && |raw| == SizeOf(fs)
  {
    FieldInside(fs, i);
    Le(raw[Offset(fs, i)..Offset(fs, i) + fs[i].size])
  }

  lemma {:induction false} PutHolds(fs: seq<CType>, vals: seq<nat>, i: nat, n: nat)
    requires |vals| == |fs| && i < n <= |fs|
    ensures Offset(fs, i) + fs[i].size <= End(fs, n)
    ensures Put(fs, vals, n)[Offset(fs, i)..Offset(fs, i) + fs[i].size] == ToLe(vals[i], fs[i].size)
    decreases n
  {
    hide AlignUp, ToLe, Zeros, Offset, End;
    Monotone(fs, i, n);
    var p, field := Put(fs, vals, n - 1), ToLe(vals[n - 1], fs[n - 1].size);
    PutEnds(fs, vals, n);
    var gap := Zeros(Offset(fs, n - 1) - End(fs, n - 1));
    var lo, hi := Offset(fs, i), Offset(fs, i) + fs[i].size;
    if i + 1 < n {
      PutHolds(fs, vals, i, n - 1);
      Monotone(fs, i, n - 1);
      PrefixSlice(p, gap + field, lo, hi);
      assert Put(fs, vals, n) == p + (gap + field);
    } else {
      assert (p + gap + field)[lo..hi] == field;
    }
  }

  /** The last field, and the gap before it. */
  lemma PutEnds(fs: seq<CType>, vals: seq<nat>, n: nat)
    requires |vals| == |fs| && 0 < n <= |fs|
    ensures End(fs, n - 1) <= Offset(fs, n - 1) && End(fs, n) == Offset(fs, n - 1) + fs[n - 1].size
    ensures Put(fs, vals, n)
         == Put(fs, vals, n - 1) + Zeros(Offset(fs, n - 1) - End(fs, n - 1)) + ToLe(vals[n - 1], fs[n - 1].size)
  {
    hide ToLe, Zeros;
  }

  lemma PrefixSlice(s: bytes, more: bytes, lo: nat, hi: nat)
    requires lo <= hi <= |s|
    ensures (s + more)[lo..hi] == s[lo..hi]
  {
  }

  /** Reading inverts writing, field by field, for every declared struct. */
  lemma PodRoundTrip(fs: seq<CType>, vals: seq<nat>, i: nat)
    requires |vals| == |fs| && i < |fs| && vals[i] < Pow256(fs[i].size)
    ensures FieldOf(PodBytes(fs, vals), fs, i) == vals[i]
  {
    hide AlignUp, ToLe, Le, SizeOf;
    PutHolds(fs, vals, i, |fs|);
    SizeCovers(fs);
    var p, z := Put(fs, vals, |fs|), Zeros(SizeOf(fs) - End(fs, |fs|));
    assert (p + z)[Offset(fs, i)..Offset(fs, i) + fs[i].size] == p[Offset(fs, i)..Offset(fs, i) + fs[i].size];
    LeOfToLe(vals[i], fs[i].size);
  }

  // -------------------------------------------------- declarations, field by field

  /** `count` consecutive fields of one type. */
  datatype Decl = Decl(count: nat, ty: CType)

  /** A field type that can follow itself without padding, as every C type can. */
  predicate Regular(t: CType) {
    t.size % t.align == 0
  }

  /** The fields of the first `i` declarations, one by one. */
  function FieldsTo(ds: seq<Decl>, i: nat): (fs: seq<CType>)
    requires i <= |ds|
    ensures |fs| == Start(ds, i)
  {
    if i == 0 then [] else FieldsTo(ds, i - 1) + seq(ds[i - 1].count, _ => ds[i - 1].ty)
  }

  /** How many fields the first `i` declarations have. */
  function Start(ds: seq<Decl>, i: nat): nat
    requires i <= |ds|
  {
    if i == 0 then 0 else Start(ds, i - 1) + ds[i - 1].count
  }

  /** All the fields of a struct. */
  function Scalars(ds: seq<Decl>): (fs: seq<CType>)
    ensures |fs| == Start(ds, |ds|)
  {
    FieldsTo(ds, |ds|)
  }

  lemma {:induction false} StartMonotone(ds: seq<Decl>, i: nat, j: nat)
    requires i < j <= |ds|
    ensures Start(ds, i) + ds[i].count <= Start(ds, j)
    decreases j
  {
    if i + 1 < j { StartMonotone(ds, i, j - 1); }
  }

  /** The fields of declaration `i` are where they were put. */
  lemma {:induction false} FieldsOfDecl(ds: seq<Decl>, i: nat, j: nat, k: nat)
    requires i < j <= |ds| && k < ds[i].count
    ensures Start(ds, i) + k < |FieldsTo(ds, j)| && FieldsTo(ds, j)[Start(ds, i) + k] == ds[i].ty
    decreases j
  {
    StartMonotone(ds, i, j);
    if i + 1 < j { FieldsOfDecl(ds, i, j - 1, k); }
  }

  /**
   A run of equal fields is laid out without gaps: the k-th lies k sizes after the
   first, which lies at the next boundary.
   */
  lemma {:induction false} RunIsDense(fs: seq<CType>, at: nat, n: nat, t: CType, k: nat)
    requires at + n <= |fs| && k < n && Regular(t) && forall j | at <= j < at + n :: fs[j] == t
    ensures Offset(fs, at + k) == AlignUp(End(fs, at), t.align) + k * t.size
    ensures End(fs, at + k + 1) == AlignUp(End(fs, at), t.align) + (k + 1) * t.size
    decreases k
  {
    hide AlignUp;
    var o := AlignUp(End(fs, at), t.align);
    assert fs[at + k] == t;
    if k > 0 {
      RunIsDense(fs, at, n, t, k - 1);
      assert End(fs, at + k) == o + k * t.size;
      AlignUpIsLeast(End(fs, at), t.align, 0);
      StaysAligned(o, k, t);
      AlignUpIs(o + k * t.size, t.align, o + k * t.size);
    }
    MulStep(k, k + 1, t.size);
  }

  lemma StaysAligned(o: nat, k: nat, t: CType)
    requires o % t.align == 0 && Regular(t)
    ensures (o + k * t.size) % t.align == 0
  {
    var a, s := o / t.align, t.size / t.align;
    assert o == a * t.align && t.size == s * t.align;
    assert o + k * t.size == (a + k * s) * t.align by {
      assert k * (s * t.align) == (k * s) * t.align;
      assert (a + k * s) * t.align == a * t.align + (k * s) * t.align;
    }
    RemainderIs(o + k * t.size, t.align, a + k * s, 0);
  }

  /** Field `k` of a struct is at offset `o`, and of type `t`. */
  predicate FieldAt(ds: seq<Decl>, k: nat, o: nat, t: CType) {
    k < |Scalars(ds)| && Offset(Scalars(ds), k) == o && Scalars(ds)[k] == t
  }

  /** The first `i` declarations are `at` fields, and end at `end`. */
  predicate UpTo(ds: seq<Decl>, i: nat, at: nat, end: nat) {
    i <= |ds| && Start(ds, i) == at && at <= |Scalars(ds)| && End(Scalars(ds), at) == end
  }

  /**
   One step of laying a struct out: declaration `i`, whose first field is number
   `at` and comes after `prev` bytes, lands at `o`.
   */
  lemma {:induction false} DeclAt(ds: seq<Decl>, i: nat, at: nat, prev: nat, n: nat, t: CType, o: nat)
    requires UpTo(ds, i, at, prev) && i < |ds| && ds[i] == Decl(n, t) && n > 0 && Regular(t)
    requires prev <= o < prev + t.align && o % t.align == 0
    ensures FieldAt(ds, at, o, t) && UpTo(ds, i + 1, at + n, o + n * t.size)
  {
    hide AlignUp, Scalars;
    DeclFields(ds, i);
    RunIsDense(Scalars(ds), at, n, t, 0);
    RunIsDense(Scalars(ds), at, n, t, n - 1);
    AlignUpIs(prev, t.align, o);
  }

  lemma {:induction false} DeclFields(ds: seq<Decl>, i: nat)
    requires i < |ds|
    ensures Start(ds, i) + ds[i].count <= |Scalars(ds)|
    ensures forall j | Start(ds, i) <= j < Start(ds, i) + ds[i].count :: Scalars(ds)[j] == ds[i].ty
  {
    var fs, at := Scalars(ds), Start(ds, i);
    StartMonotone(ds, i, |ds|);
    forall j | at <= j < at + ds[i].count ensures fs[j] == ds[i].ty { FieldsOfDecl(ds, i, |ds|, j - at); }
  }

  /** Field `at + k` of the struct, `k` into declaration `i`. */
  lemma {:induction false} NthAt(ds: seq<Decl>, i: nat, at: nat, prev: nat, k: nat, o: nat)
    requires i < |ds| && UpTo(ds, i, at, prev) && FieldAt(ds, at, o, ds[i].ty) && k < ds[i].count && Regular(ds[i].ty)
    ensures FieldAt(ds, at + k, o + k * ds[i].ty.size, ds[i].ty)
  {
    hide AlignUp, Scalars;
    DeclFields(ds, i);
    RunIsDense(Scalars(ds), at, ds[i].count, ds[i].ty, 0);
    RunIsDense(Scalars(ds), at, ds[i].count, ds[i].ty, k);
  }

  lemma {:induction false} ScalarsFrom(ds: seq<Decl>, i: nat, align: Align)
    requires i <= |ds| && forall d | d in ds :: d.ty.align <= align
    ensures forall k | 0 <= k < |FieldsTo(ds, i)| :: FieldsTo(ds, i)[k].align <= align
    decreases i
  {
    if i > 0 {
      ScalarsFrom(ds, i - 1, align);
      assert ds[i - 1] in ds;
    }
  }

  /** The end of the layout: the struct's size and alignment, given its strictest declaration `i`. */
  lemma {:induction false} DeclTotal(ds: seq<Decl>, at: nat, end: nat, i: nat, align: Align, size: nat)
    requires UpTo(ds, |ds|, at, end)
    requires i < |ds| && ds[i].count > 0 && ds[i].ty.align == align && forall d | d in ds :: d.ty.align <= align
    requires end <= size < end + align && size % align == 0
    ensures StructType(Scalars(ds)) == CType(size, align)
  {
    hide AlignUp, MaxAlign;
    DeclFields(ds, i);
    ScalarsFrom(ds, |ds|, align);
    Total(Scalars(ds), end, Start(ds, i), align, size);
  }

  lemma DeclStart(ds: seq<Decl>)
    ensures UpTo(ds, 0, 0, 0)
  {
  }

  // -------------------------------------------------------- the protocol's structs

  /** One step of laying a struct out: field `i`, coming after `prev` bytes, lands at `o`. */
  lemma At(fs: seq<CType>, i: nat, prev: nat, t: CType, o: nat)
    requires i < |fs| && End(fs, i) == prev && fs[i] == t
    requires prev <= o < prev + t.align && o % t.align == 0
    ensures Offset(fs, i) == o && End(fs, i + 1) == o + t.size
  {
    hide AlignUp;
    AlignUpIs(prev, t.align, o);
  }

  lemma AlignUpIs(len: nat, align: Align, o: nat)
    requires len <= o < len + align && o % align == 0
    ensures AlignUp(len, align) == o
  {
    hide AlignUp;
    AlignUpIsLeast(len, align, o);
    var up := AlignUp(len, align);
    var q := up / align;
    var k := o / align;
    assert up == q * align + up % align && o == k * align + o % align;
    if q < k { MulStep(q, k, align); }
  }

  /** The end of the layout: the struct's size and alignment, given its strictest field `k`. */
  lemma Total(fs: seq<CType>, end: nat, k: nat, align: Align, size: nat)
    requires End(fs, |fs|) == end
    requires k < |fs| && fs[k].align == align && forall i | 0 <= i < |fs| :: fs[i].align <= align
    requires end <= size < end + align && size % align == 0
    ensures StructType(fs) == CType(size, align)
  {
    hide AlignUp, MaxAlign;
    Strictest(fs, k, align);
    AlignUpIs(end, align, size);
  }

  lemma StartsAtZero(fs: seq<CType>)
    ensures End(fs, 0) == 0
  {
  }

  /** The strictest alignment among the fields is that of field `k`. */
  lemma Strictest(fs: seq<CType>, k: nat, align: Align)
    requires k < |fs| && fs[k].align == align && forall i | 0 <= i < |fs| :: fs[i].align <= align
    ensures MaxAlign(fs) == align
  {
    hide MaxAlign;
  }

  const U8 := CType(1, 1)
  const U16 := CType(2, 2)
  const I32 := CType(4, 4)
  const USIZE := CType(8, 8)
  // Types of nested structs. Each is proved below to be what the layout rule makes of the struct's own declaration.
  const DOT3_MACPHY_T := CType(6, 2)
  const DOT3_POWER_T := CType(36, 2)
  const MED_POLICY_T := CType(8, 2)
  const MED_LOC_T := CType(MED_LOC_SIZE, 8)
  const MED_POWER_T := CType(6, 2)
  const CDP_POWER_T := CType(4, 2)
  const PORT_T := CType(PORT_SIZE, 8)

  /** struct lldpd_med_loc: index, format; data; data_len. */
  function MedLocDecls(): seq<Decl> {
    [Decl(2, U8), Decl(1, USIZE), Decl(1, I32)]
  }

  lemma MedLocLayout()
    ensures FieldAt(MedLocDecls(), 2, LOC_DATA, USIZE)
    ensures StructType(Scalars(MedLocDecls())) == CType(MED_LOC_SIZE, 8)
  {
    hide FieldAt, UpTo, StructType, Scalars;
    var ds := MedLocDecls();
    DeclStart(ds);
    DeclAt(ds, 0, 0, 0, 2, CType(1, 1), 0);
    DeclAt(ds, 1, 2, 2, 1, CType(8, 8), 8);
    DeclAt(ds, 2, 3, 16, 1, CType(4, 4), 16);
    DeclTotal(ds, 4, 20, 1, 8, 24);
  }

  /** struct lldpd_med_policy. */
  function MedPolicyDecls(): seq<Decl> {
    [Decl(4, U8), Decl(1, U16), Decl(2, U8)]
  }

  lemma MedPolicyLayout()
    ensures StructType(Scalars(MedPolicyDecls())) == CType(8, 2)
  {
    hide FieldAt, UpTo, StructType, Scalars;
    var ds := MedPolicyDecls();
    DeclStart(ds);
    DeclAt(ds, 0, 0, 0, 4, CType(1, 1), 0);
    DeclAt(ds, 1, 4, 4, 1, CType(2, 2), 4);
    DeclAt(ds, 2, 5, 6, 2, CType(1, 1), 6);
    DeclTotal(ds, 7, 8, 1, 2, 8);
  }

  /** struct lldpd_med_power. */
  function MedPowerDecls(): seq<Decl> {
    [Decl(3, U8), Decl(1, U16)]
  }

  lemma MedPowerLayout()
    ensures StructType(Scalars(MedPowerDecls())) == CType(6, 2)
  {
    hide FieldAt, UpTo, StructType, Scalars;
    var ds := MedPowerDecls();
    DeclStart(ds);
    DeclAt(ds, 0, 0, 0, 3, CType(1, 1), 0);
    DeclAt(ds, 1, 3, 3, 1, CType(2, 2), 4);
    DeclTotal(ds, 4, 6, 1, 2, 6);
  }

  /** struct cdpv2_power. */
  function CdpPowerDecls(): seq<Decl> {
    [Decl(2, U16)]
  }

  lemma CdpPowerLayout()
    ensures StructType(Scalars(CdpPowerDecls())) == CType(4, 2)
  {
    hide FieldAt, UpTo, StructType, Scalars;
    var ds := CdpPowerDecls();
    DeclStart(ds);
    DeclAt(ds, 0, 0, 0, 2, CType(2, 2), 0);
    DeclTotal(ds, 2, 4, 0, 2, 4);
  }

  /** struct lldpd_dot3_macphy. */
  function Dot3MacphyDecls(): seq<Decl> {
    [Decl(2, U8), Decl(2, U16)]
  }

  lemma Dot3MacphyLayout()
    ensures StructType(Scalars(Dot3MacphyDecls())) == CType(6, 2)
  {
    hide FieldAt, UpTo, StructType, Scalars;
    var ds := Dot3MacphyDecls();
    DeclStart(ds);
    DeclAt(ds, 0, 0, 0, 2, CType(1, 1), 0);
    DeclAt(ds, 1, 2, 2, 2, CType(2, 2), 2);
    DeclTotal(ds, 4, 6, 1, 2, 6);
  }

  /** struct lldpd_dot3_power. */
  function Dot3PowerDecls(): seq<Decl> {
    [Decl(9, U8), Decl(2, U16), Decl(1, U8), Decl(5, U16), Decl(7, U8), Decl(1, U16)]
  }

  lemma Dot3PowerLayout()
    ensures StructType(Scalars(Dot3PowerDecls())) == CType(36, 2)
  {
    hide FieldAt, UpTo, StructType, Scalars;
    var ds := Dot3PowerDecls();
    DeclStart(ds);
    DeclAt(ds, 0, 0, 0, 9, CType(1, 1), 0);
    DeclAt(ds, 1, 9, 9, 2, CType(2, 2), 10);
    DeclAt(ds, 2, 11, 14, 1, CType(1, 1), 14);
    DeclAt(ds, 3, 12, 15, 5, CType(2, 2), 16);
    DeclAt(ds, 4, 17, 26, 7, CType(1, 1), 26);
    DeclAt(ds, 5, 24, 33, 1, CType(2, 2), 34);
    DeclTotal(ds, 25, 36, 1, 2, 36);
  }

  /** struct lldpd_mgmt: links; m_family; m_addr; m_addrsize; m_iface. */
  function MgmtDecls(): seq<Decl> {
    [Decl(2, USIZE), Decl(1, I32), Decl(1, Many(16, U8)), Decl(1, USIZE), Decl(1, I32)]
  }

  lemma MgmtLayout()
    ensures FieldAt(MgmtDecls(), 0, TQE_NEXT, USIZE)
    ensures FieldAt(MgmtDecls(), 2, M_FAMILY, I32)
    ensures FieldAt(MgmtDecls(), 3, M_ADDR, Many(16, U8))
    ensures FieldAt(MgmtDecls(), 4, M_ADDRSIZE, USIZE)
    ensures FieldAt(MgmtDecls(), 5, M_IFACE, I32)
    ensures StructType(Scalars(MgmtDecls())) == CType(MGMT_SIZE, 8)
  {
    hide FieldAt, UpTo, StructType, Scalars;
    var ds := MgmtDecls();
    DeclStart(ds);
    DeclAt(ds, 0, 0, 0, 2, CType(8, 8), 0);
    DeclAt(ds, 1, 2, 16, 1, CType(4, 4), 16);
    DeclAt(ds, 2, 3, 20, 1, CType(16, 1), 20);
    DeclAt(ds, 3, 4, 36, 1, CType(8, 8), 40);
    DeclAt(ds, 4, 5, 48, 1, CType(4, 4), 48);
    DeclTotal(ds, 6, 52, 0, 8, 56);
  }

  /** struct lldpd_vlan: links, v_name; v_vid. */
  function VlanDecls(): seq<Decl> {
    [Decl(3, USIZE), Decl(1, U16)]
  }

  lemma VlanLayout()
    ensures FieldAt(VlanDecls(), 0, TQE_NEXT, USIZE)
    ensures FieldAt(VlanDecls(), 2, V_NAME, USIZE)
    ensures StructType(Scalars(VlanDecls())) == CType(VLAN_SIZE, 8)
  {
    hide FieldAt, UpTo, StructType, Scalars;
    var ds := VlanDecls();
    DeclStart(ds);
    DeclAt(ds, 0, 0, 0, 3, CType(8, 8), 0);
    NthAt(ds, 0, 0, 0, 2, 0);
    DeclAt(ds, 1, 3, 24, 1, CType(2, 2), 24);
    DeclTotal(ds, 4, 26, 0, 8, 32);
  }

  /** struct lldpd_ppvid: links; p_cap_status; p_ppvid. */
  function PpvidDecls(): seq<Decl> {
    [Decl(2, USIZE), Decl(1, U8), Decl(1, U16)]
  }

  lemma PpvidLayout()
    ensures FieldAt(PpvidDecls(), 0, TQE_NEXT, USIZE)
    ensures StructType(Scalars(PpvidDecls())) == CType(PPVID_SIZE, 8)
  {
    hide FieldAt, UpTo, StructType, Scalars;
    var ds := PpvidDecls();
    DeclStart(ds);
    DeclAt(ds, 0, 0, 0, 2, CType(8, 8), 0);
    DeclAt(ds, 1, 2, 16, 1, CType(1, 1), 16);
    DeclAt(ds, 2, 3, 17, 1, CType(2, 2), 18);
    DeclTotal(ds, 4, 20, 0, 8, 24);
  }

  /** struct lldpd_pi: links, p_pi; p_pi_len. */
  function PiDecls(): seq<Decl> {
    [Decl(3, USIZE), Decl(1, I32)]
  }

  lemma PiLayout()
    ensures FieldAt(PiDecls(), 0, TQE_NEXT, USIZE)
    ensures FieldAt(PiDecls(), 2, P_PI, USIZE)
    ensures StructType(Scalars(PiDecls())) == CType(PI_SIZE, 8)
  {
    hide FieldAt, UpTo, StructType, Scalars;
    var ds := PiDecls();
    DeclStart(ds);
    DeclAt(ds, 0, 0, 0, 3, CType(8, 8), 0);
    NthAt(ds, 0, 0, 0, 2, 0);
    DeclAt(ds, 1, 3, 24, 1, CType(4, 4), 24);
    DeclTotal(ds, 4, 28, 0, 8, 32);
  }

  /** struct lldpd_interface: links, name, alias. */
  function InterfaceDecls(): seq<Decl> {
    [Decl(4, USIZE)]
  }

  lemma InterfaceLayout()
    ensures FieldAt(InterfaceDecls(), 0, TQE_NEXT, USIZE)
    ensures FieldAt(InterfaceDecls(), 2, I_NAME, USIZE)
    ensures FieldAt(InterfaceDecls(), 3, I_ALIAS, USIZE)
    ensures StructType(Scalars(InterfaceDecls())) == CType(INTERFACE_SIZE, 8)
  {
    hide FieldAt, UpTo, StructType, Scalars;
    var ds := InterfaceDecls();
    DeclStart(ds);
    DeclAt(ds, 0, 0, 0, 4, CType(8, 8), 0);
    NthAt(ds, 0, 0, 0, 2, 0);
    NthAt(ds, 0, 0, 0, 3, 0);
    DeclTotal(ds, 4, 32, 0, 8, 32);
  }

  /** the interface list head: first, last. */
  function InterfaceListDecls(): seq<Decl> {
    [Decl(2, USIZE)]
  }

  lemma InterfaceListLayout()
    ensures FieldAt(InterfaceListDecls(), 0, TQH_FIRST, USIZE)
    ensures StructType(Scalars(InterfaceListDecls())) == CType(INTERFACE_LIST_SIZE, 8)
  {
    hide FieldAt, UpTo, StructType, Scalars;
    var ds := InterfaceListDecls();
    DeclStart(ds);
    DeclAt(ds, 0, 0, 0, 2, CType(8, 8), 0);
    DeclTotal(ds, 2, 16, 0, 8, 16);
  }

  /** struct lldpd_neighbor_change: ifname, ifalias; state; neighbor. */
  function ChangeDecls(): seq<Decl> {
    [Decl(2, USIZE), Decl(1, I32), Decl(1, USIZE)]
  }

  lemma ChangeLayout0()
    ensures UpTo(ChangeDecls(), 1, 2, 16)
    ensures FieldAt(ChangeDecls(), 1, N_IFALIAS, USIZE)
    ensures FieldAt(ChangeDecls(), 0, N_IFNAME, USIZE)
  {
    hide FieldAt, UpTo, Scalars;
    var ds := ChangeDecls();
    DeclStart(ds);
    DeclAt(ds, 0, 0, 0, 2, CType(8, 8), 0);
    NthAt(ds, 0, 0, 0, 1, 0);
  }

  lemma ChangeLayout()
    ensures FieldAt(ChangeDecls(), 2, N_STATE, I32)
    ensures FieldAt(ChangeDecls(), 3, N_NEIGHBOR, USIZE)
    ensures StructType(Scalars(ChangeDecls())) == CType(CHANGE_SIZE, 8)
  {
    hide FieldAt, UpTo, StructType, Scalars;
    var ds := ChangeDecls();
    ChangeLayout0();
    DeclAt(ds, 1, 2, 16, 1, CType(4, 4), 16);
    DeclAt(ds, 2, 3, 20, 1, CType(8, 8), 24);
    DeclTotal(ds, 4, 32, 0, 8, 32);
  }

  /** struct lldpd_chassis: links; refcount, index; protocol, id subtype; id; id length; name, description;
   capabilities; management list head; MED capability; MED type; the seven MED strings. */
  function ChassisDecls(): seq<Decl> {
    [Decl(2, USIZE), Decl(2, U16), Decl(2, U8), Decl(1, USIZE), Decl(1, I32), Decl(2, USIZE), Decl(2, U16),
     Decl(2, USIZE), Decl(1, U16), Decl(1, U8), Decl(7, USIZE)]
  }

  lemma ChassisLayout0()
    ensures FieldAt(ChassisDecls(), 5, C_ID_SUBTYPE, U8)
    ensures FieldAt(ChassisDecls(), 6, C_ID, USIZE)
    ensures FieldAt(ChassisDecls(), 8, C_NAME, USIZE)
    ensures FieldAt(ChassisDecls(), 9, C_DESCR, USIZE)
    ensures FieldAt(ChassisDecls(), 10, C_CAP_AVAILABLE, U16)
    ensures FieldAt(ChassisDecls(), 11, C_CAP_ENABLED, U16)
    ensures FieldAt(ChassisDecls(), 12, C_MGMT_FIRST, USIZE)
    ensures UpTo(ChassisDecls(), 10, 16, 83)
  {
    hide FieldAt, UpTo, StructType, Scalars;
    var ds := ChassisDecls();
    DeclStart(ds);
    DeclAt(ds, 0, 0, 0, 2, CType(8, 8), 0);
    DeclAt(ds, 1, 2, 16, 2, CType(2, 2), 16);
    DeclAt(ds, 2, 4, 20, 2, CType(1, 1), 20);
    NthAt(ds, 2, 4, 20, 1, 20);
    DeclAt(ds, 3, 6, 22, 1, CType(8, 8), 24);
    DeclAt(ds, 4, 7, 32, 1, CType(4, 4), 32);
    DeclAt(ds, 5, 8, 36, 2, CType(8, 8), 40);
    NthAt(ds, 5, 8, 36, 1, 40);
    DeclAt(ds, 6, 10, 56, 2, CType(2, 2), 56);
    NthAt(ds, 6, 10, 56, 1, 56);
    DeclAt(ds, 7, 12, 60, 2, CType(8, 8), 64);
    DeclAt(ds, 8, 14, 80, 1, CType(2, 2), 80);
    DeclAt(ds, 9, 15, 82, 1, CType(1, 1), 82);
  }

  lemma ChassisLayout1()
    ensures FieldAt(ChassisDecls(), 16, C_MED_HW, USIZE)
    ensures FieldAt(ChassisDecls(), 17, C_MED_FW, USIZE)
    ensures FieldAt(ChassisDecls(), 18, C_MED_SW, USIZE)
    ensures FieldAt(ChassisDecls(), 19, C_MED_SN, USIZE)
    ensures FieldAt(ChassisDecls(), 20, C_MED_MANUF, USIZE)
    ensures FieldAt(ChassisDecls(), 21, C_MED_MODEL, USIZE)
    ensures FieldAt(ChassisDecls(), 22, C_MED_ASSET, USIZE)
    ensures StructType(Scalars(ChassisDecls())) == CType(CHASSIS_SIZE, 8)
  {
    hide FieldAt, UpTo, StructType, Scalars;
    var ds := ChassisDecls();
    ChassisLayout0();
    DeclAt(ds, 10, 16, 83, 7, CType(8, 8), 88);
    NthAt(ds, 10, 16, 83, 1, 88);
    NthAt(ds, 10, 16, 83, 2, 88);
    NthAt(ds, 10, 16, 83, 3, 88);
    NthAt(ds, 10, 16, 83, 4, 88);
    NthAt(ds, 10, 16, 83, 5, 88);
    NthAt(ds, 10, 16, 83, 6, 88);
    DeclTotal(ds, 23, 144, 0, 8, 144);
  }

  /** struct lldpd_port: links, chassis, three times, last frame; protocol, flags; hardware flags; id subtype;
   id; id length; description; its force flag; mfs, ttl; VLAN tag, VLAN enabled; VLAN pattern; aggregation id;
   MAC/PHY; power; MED capability; policies; the three locations, one by one; MED power; CDP power; pvid; three
   list heads. */
  function PortDeclsFrom(macphy: CType, power: CType, policy: CType, location: CType, medPower: CType, cdpPower: CType):
    seq<Decl>
  {
    [Decl(7, USIZE), Decl(2, U8), Decl(1, I32), Decl(1, U8), Decl(1, USIZE), Decl(1, I32), Decl(1, USIZE),
     Decl(1, I32), Decl(2, U16), Decl(2, I32), Decl(1, USIZE), Decl(1, I32), Decl(1, macphy), Decl(1, power),
     Decl(1, U16), Decl(1, Many(8, policy)), Decl(3, location), Decl(1, medPower), Decl(1, cdpPower),
     Decl(1, U16), Decl(6, USIZE)]
  }

  function PortDecls(): seq<Decl> {
    PortDeclsFrom(DOT3_MACPHY_T, DOT3_POWER_T, MED_POLICY_T, MED_LOC_T, MED_POWER_T, CDP_POWER_T)
  }

  lemma PortLayout0()
    ensures FieldAt(PortDecls(), 0, TQE_NEXT, USIZE)
    ensures FieldAt(PortDecls(), 2, P_CHASSIS, USIZE)
    ensures FieldAt(PortDecls(), 10, P_ID_SUBTYPE, U8)
    ensures FieldAt(PortDecls(), 11, P_ID, USIZE)
    ensures FieldAt(PortDecls(), 13, P_DESCR, USIZE)
    ensures FieldAt(PortDecls(), 16, P_TTL, U16)
    ensures UpTo(PortDecls(), 10, 19, 112)
  {
    hide FieldAt, UpTo, StructType, Scalars;
    var ds := PortDecls();
    DeclStart(ds);
    DeclAt(ds, 0, 0, 0, 7, CType(8, 8), 0);
    NthAt(ds, 0, 0, 0, 2, 0);
    DeclAt(ds, 1, 7, 56, 2, CType(1, 1), 56);
    DeclAt(ds, 2, 9, 58, 1, CType(4, 4), 60);
    DeclAt(ds, 3, 10, 64, 1, CType(1, 1), 64);
    DeclAt(ds, 4, 11, 65, 1, CType(8, 8), 72);
    DeclAt(ds, 5, 12, 80, 1, CType(4, 4), 80);
    DeclAt(ds, 6, 13, 84, 1, CType(8, 8), 88);
    DeclAt(ds, 7, 14, 96, 1, CType(4, 4), 96);
    DeclAt(ds, 8, 15, 100, 2, CType(2, 2), 100);
    NthAt(ds, 8, 15, 100, 1, 100);
    DeclAt(ds, 9, 17, 104, 2, CType(4, 4), 104);
  }

  lemma PortLayout1()
    ensures FieldAt(PortDecls(), 19, P_VLAN_PATTERN, USIZE)
    ensures FieldAt(PortDecls(), 25, P_MED_LOCATION_0, MED_LOC_T)
    ensures FieldAt(PortDecls(), 26, P_MED_LOCATION_1, MED_LOC_T)
    ensures FieldAt(PortDecls(), 27, P_MED_LOCATION_2, MED_LOC_T)
    ensures UpTo(PortDecls(), 20, 31, 316)
  {
    hide FieldAt, UpTo, StructType, Scalars;
    var ds := PortDecls();
    PortLayout0();
    DeclAt(ds, 10, 19, 112, 1, CType(8, 8), 112);
    DeclAt(ds, 11, 20, 120, 1, CType(4, 4), 120);
    DeclAt(ds, 12, 21, 124, 1, CType(6, 2), 124);
    DeclAt(ds, 13, 22, 130, 1, CType(36, 2), 130);
    DeclAt(ds, 14, 23, 166, 1, CType(2, 2), 166);
    DeclAt(ds, 15, 24, 168, 1, CType(64, 2), 168);
    DeclAt(ds, 16, 25, 232, 3, CType(24, 8), 232);
    NthAt(ds, 16, 25, 232, 1, 232);
    NthAt(ds, 16, 25, 232, 2, 232);
    DeclAt(ds, 17, 28, 304, 1, CType(6, 2), 304);
    DeclAt(ds, 18, 29, 310, 1, CType(4, 2), 310);
    DeclAt(ds, 19, 30, 314, 1, CType(2, 2), 314);
  }

  lemma PortLayout2()
    ensures FieldAt(PortDecls(), 31, P_VLANS_FIRST, USIZE)
    ensures FieldAt(PortDecls(), 33, P_PPVIDS_FIRST, USIZE)
    ensures FieldAt(PortDecls(), 35, P_PIDS_FIRST, USIZE)
    ensures StructType(Scalars(PortDecls())) == CType(PORT_SIZE, 8)
  {
    hide FieldAt, UpTo, StructType, Scalars;
    var ds := PortDecls();
    PortLayout1();
    DeclAt(ds, 20, 31, 316, 6, CType(8, 8), 320);
    NthAt(ds, 20, 31, 316, 2, 320);
    NthAt(ds, 20, 31, 316, 4, 320);
    DeclTotal(ds, 37, 368, 0, 8, 368);
  }

  /** struct lldpd_hardware up to 1.0.22. */
  function HardwareDeclsFrom(port: CType): seq<Decl> {
    [Decl(4, USIZE), Decl(2, I32), Decl(3, USIZE), Decl(4, I32), Decl(1, Many(16, U8)), Decl(1, USIZE),
     Decl(1, Many(6, U8)), Decl(8, USIZE), Decl(2, USIZE), Decl(1, U8), Decl(1, USIZE), Decl(1, I32),
     Decl(1, U8), Decl(1, USIZE), Decl(1, I32), Decl(1, USIZE), Decl(1, port), Decl(2, USIZE), Decl(1, I32)]
  }

  function HardwareDecls(): seq<Decl> {
    HardwareDeclsFrom(PORT_T)
  }

  lemma HardwareLayoutStart()
    ensures FieldAt(HardwareDecls(), 13, H_IFNAME, Many(16, U8)) && UpTo(HardwareDecls(), 5, 14, 96)
  {
    hide FieldAt, UpTo, StructType, Scalars;
    var ds := HardwareDecls();
    DeclStart(ds);
    DeclAt(ds, 0, 0, 0, 4, CType(8, 8), 0);
    DeclAt(ds, 1, 4, 32, 2, CType(4, 4), 32);
    DeclAt(ds, 2, 6, 40, 3, CType(8, 8), 40);
    DeclAt(ds, 3, 9, 64, 4, CType(4, 4), 64);
    DeclAt(ds, 4, 13, 80, 1, CType(16, 1), 80);
  }

  lemma HardwareLayout0()
    ensures FieldAt(HardwareDecls(), 13, H_IFNAME, Many(16, U8))
    ensures FieldAt(HardwareDecls(), 14, H_IFALIAS, USIZE)
    ensures FieldAt(HardwareDecls(), 15, H_LLADDR, Many(6, U8))
    ensures UpTo(HardwareDecls(), 10, 27, 193)
  {
    hide FieldAt, UpTo, StructType, Scalars;
    var ds := HardwareDecls();
    HardwareLayoutStart();
    DeclAt(ds, 5, 14, 96, 1, CType(8, 8), 96);
    DeclAt(ds, 6, 15, 104, 1, CType(6, 1), 104);
    DeclAt(ds, 7, 16, 110, 8, CType(8, 8), 112);
    DeclAt(ds, 8, 24, 176, 2, CType(8, 8), 176);
    DeclAt(ds, 9, 26, 192, 1, CType(1, 1), 192);
  }

  lemma HardwareLayout1()
    ensures FieldAt(HardwareDecls(), 33, H_LPORT, PORT_T)
    ensures FieldAt(HardwareDecls(), 34, H_RPORTS_FIRST, USIZE)
    ensures StructType(Scalars(HardwareDecls())) == CType(HARDWARE_SIZE, 8)
  {
    hide FieldAt, UpTo, StructType, Scalars;
    var ds := HardwareDecls();
    HardwareLayout0();
    DeclAt(ds, 10, 27, 193, 1, CType(8, 8), 200);
    DeclAt(ds, 11, 28, 208, 1, CType(4, 4), 208);
    DeclAt(ds, 12, 29, 212, 1, CType(1, 1), 212);
    DeclAt(ds, 13, 30, 213, 1, CType(8, 8), 216);
    DeclAt(ds, 14, 31, 224, 1, CType(4, 4), 224);
    DeclAt(ds, 15, 32, 228, 1, CType(8, 8), 232);
    DeclAt(ds, 16, 33, 240, 1, CType(368, 8), 240);
    DeclAt(ds, 17, 34, 608, 2, CType(8, 8), 608);
    DeclAt(ds, 18, 36, 624, 1, CType(4, 4), 624);
    DeclTotal(ds, 37, 628, 0, 8, 632);
  }

  /** the same struct with h_flags_previous after h_flags. */
  function FpHardwareDeclsFrom(port: CType): seq<Decl> {
    [Decl(4, USIZE), Decl(2, I32), Decl(3, USIZE), Decl(5, I32), Decl(1, Many(16, U8)), Decl(1, USIZE),
     Decl(1, Many(6, U8)), Decl(8, USIZE), Decl(2, USIZE), Decl(1, U8), Decl(1, USIZE), Decl(1, I32),
     Decl(1, U8), Decl(1, USIZE), Decl(1, I32), Decl(1, USIZE), Decl(1, port), Decl(2, USIZE), Decl(1, I32)]
  }

  function FpHardwareDecls(): seq<Decl> {
    FpHardwareDeclsFrom(PORT_T)
  }

  lemma FpHardwareLayoutStart()
    ensures FieldAt(FpHardwareDecls(), 14, FP_IFNAME, Many(16, U8)) && UpTo(FpHardwareDecls(), 5, 15, 100)
  {
    hide FieldAt, UpTo, StructType, Scalars;
    var ds := FpHardwareDecls();
    DeclStart(ds);
    DeclAt(ds, 0, 0, 0, 4, CType(8, 8), 0);
    DeclAt(ds, 1, 4, 32, 2, CType(4, 4), 32);
    DeclAt(ds, 2, 6, 40, 3, CType(8, 8), 40);
    DeclAt(ds, 3, 9, 64, 5, CType(4, 4), 64);
    DeclAt(ds, 4, 14, 84, 1, CType(16, 1), 84);
  }

  lemma FpHardwareLayout0()
    ensures FieldAt(FpHardwareDecls(), 14, FP_IFNAME, Many(16, U8))
    ensures FieldAt(FpHardwareDecls(), 15, FP_IFALIAS, USIZE)
    ensures FieldAt(FpHardwareDecls(), 16, FP_LLADDR, Many(6, U8))
    ensures UpTo(FpHardwareDecls(), 10, 28, 201)
  {
    hide FieldAt, UpTo, StructType, Scalars;
    var ds := FpHardwareDecls();
    FpHardwareLayoutStart();
    DeclAt(ds, 5, 15, 100, 1, CType(8, 8), 104);
    DeclAt(ds, 6, 16, 112, 1, CType(6, 1), 112);
    DeclAt(ds, 7, 17, 118, 8, CType(8, 8), 120);
    DeclAt(ds, 8, 25, 184, 2, CType(8, 8), 184);
    DeclAt(ds, 9, 27, 200, 1, CType(1, 1), 200);
  }

  lemma FpHardwareLayout1()
    ensures FieldAt(FpHardwareDecls(), 34, FP_LPORT, PORT_T)
    ensures FieldAt(FpHardwareDecls(), 35, FP_RPORTS_FIRST, USIZE)
    ensures StructType(Scalars(FpHardwareDecls())) == CType(FP_HARDWARE_SIZE, 8)
  {
    hide FieldAt, UpTo, StructType, Scalars;
    var ds := FpHardwareDecls();
    FpHardwareLayout0();
    DeclAt(ds, 10, 28, 201, 1, CType(8, 8), 208);
    DeclAt(ds, 11, 29, 216, 1, CType(4, 4), 216);
    DeclAt(ds, 12, 30, 220, 1, CType(1, 1), 220);
    DeclAt(ds, 13, 31, 221, 1, CType(8, 8), 224);
    DeclAt(ds, 14, 32, 232, 1, CType(4, 4), 232);
    DeclAt(ds, 15, 33, 236, 1, CType(8, 8), 240);
    DeclAt(ds, 16, 34, 248, 1, CType(368, 8), 248);
    DeclAt(ds, 17, 35, 616, 2, CType(8, 8), 616);
    DeclAt(ds, 18, 37, 632, 1, CType(4, 4), 632);
    DeclTotal(ds, 38, 636, 0, 8, 640);
  }

  /** struct lldpd_port_set: ifname, local_id, local_descr, pattern; rxtx, tag, enabled; four pointers. */
  function PortSetFields(): (fs: seq<CType>)
    ensures |fs| == 11
  {
    [USIZE, USIZE, USIZE, USIZE, I32, I32, I32, USIZE, USIZE, USIZE, USIZE]
  }

  /** No padding after the last field. */
  predicate EndsAtSize(fs: seq<CType>) {
    End(fs, |fs|) == SizeOf(fs)
  }

  /** Field `i` of a list is at offset `o`. */
  predicate LiesAt(fs: seq<CType>, i: nat, o: nat) {
    i < |fs| && Offset(fs, i) == o
  }

  lemma SizeIsEnd(fs: seq<CType>, t: CType)
    requires StructType(fs) == t && End(fs, |fs|) == t.size
    ensures EndsAtSize(fs)
  {
    hide AlignUp, MaxAlign, End;
  }

  lemma PortSetOffsets()
    ensures var fs := PortSetFields();
            && LiesAt(fs, 0, 0) && LiesAt(fs, 1, 8) && LiesAt(fs, 2, 16) && LiesAt(fs, 3, 24) && LiesAt(fs, 4, 32)
            && LiesAt(fs, 5, 36) && LiesAt(fs, 6, 40) && LiesAt(fs, 7, 48) && LiesAt(fs, 8, 56) && LiesAt(fs, 9, 64)
            && LiesAt(fs, 10, 72) && StructType(fs) == CType(PORT_SET_SIZE, 8) && EndsAtSize(fs)
  {
    hide Offset, End, SizeOf, AlignUp, MaxAlign, StructType;
    var fs := PortSetFields();
    StartsAtZero(fs);
    At(fs, 0, 0, CType(8, 8), 0);
    At(fs, 1, 8, CType(8, 8), 8);
    At(fs, 2, 16, CType(8, 8), 16);
    At(fs, 3, 24, CType(8, 8), 24);
    At(fs, 4, 32, CType(4, 4), 32);
    At(fs, 5, 36, CType(4, 4), 36);
    At(fs, 6, 40, CType(4, 4), 40);
    At(fs, 7, 44, CType(8, 8), 48);
    At(fs, 8, 56, CType(8, 8), 56);
    At(fs, 9, 64, CType(8, 8), 64);
    At(fs, 10, 72, CType(8, 8), 72);
    Total(fs, 80, 0, 8, 80);
    SizeIsEnd(fs, CType(80, 8));
  }

  lemma PortSetLayout()
    ensures Offset(PortSetFields(), 0) == S_IFNAME && PortSetFields()[0] == USIZE
    ensures Offset(PortSetFields(), 2) == S_LOCAL_DESCR && PortSetFields()[2] == USIZE
    ensures Offset(PortSetFields(), 6) == S_VLAN_TX_ENABLED && PortSetFields()[6] == I32
    ensures StructType(PortSetFields()) == CType(PORT_SET_SIZE, 8)
  {
    hide Offset, End, StructType;
    PortSetOffsets();
  }
}
