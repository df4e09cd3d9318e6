/** Numbered trees say what the trees they came from say; the messages a sender writes. */
module Sender {
  import opened Bytes
  import opened Raw
  import opened Model
  import opened Marshal
  import opened Emitter
  import opened WellFormed
  import opened View
  import opened Schemas
  import opened Payload
  import opened Numbering
  import opened Renumber

  // --------------------------------------------------- equal but for the numbers

  predicate Same(a: Tree, b: Tree)
    decreases a
  {
    match a
    case Leaf(_, body) => b.Leaf? && b.body == body
    case Node(_, raw, kids) => b.Node? && b.raw == raw && SameKids(kids, b.kids)
  }

  predicate SameKids(xs: seq<Kid>, ys: seq<Kid>)
    decreases xs
  {
    |xs| == |ys| && forall i | 0 <= i < |xs| :: SameKid(xs[i], ys[i])
  }

  predicate SameKid(a: Kid, b: Kid)
    decreases a
  {
    match a
    case Absent => b.Absent?
    case Child(t) => b.Child? && Same(t, b.tree)
    case Marked(_, kids) => b.Marked? && SameKids(kids, b.kids)
    case Group(kids) => b.Group? && SameKids(kids, b.kids)
  }

  /** The numbered chassis so far are the table's, but for their numbers. */
  predicate SameChassis(seen: Cache, table: Cache) {
    forall id | id in seen :: id in table && Same(seen[id], table[id])
  }

  lemma {:induction false} NumberSame(ty: Ty, t: Tree, n: nat, seen: Cache, table: Cache)
    requires Wf(ty, t) && Agrees(ty, t, table) && SameChassis(seen, table)
    ensures var r := Number(ty, t, n, seen); Same(r.item, t) && SameChassis(r.seen, table)
    decreases t, 0
  {
    hide Fields, NumberRun, KidsWf, KidsAgree, SameKid, SameChassis;
    if !IsLeaf(ty) {
      RunNumberSame(ty, 0, t.raw, t.kids, n + 1, seen, table);
      assert t.kids[0..] == t.kids;
    }
  }

  lemma {:induction false} RunNumberSame(ty: Ty, i: nat, raw: bytes, kids: seq<Kid>, n: nat, seen: Cache, table: Cache)
    requires |raw| == Size(ty) && KidsWf(ty, raw, kids) && KidsAgree(ty, raw, kids, table) && i <= |kids|
    requires SameChassis(seen, table)
    ensures var r := NumberRun(ty, i, raw, kids, n, seen);
            SameKids(r.item, kids[i..]) && SameChassis(r.seen, table)
    decreases kids, |kids| - i
  {
    hide Fields, NumberKid, KidWf, KidAgrees, SameKid, SameChassis;
    if i < |kids| {
      var k := NumberKid(ty, Fields(ty)[i], raw, kids[i], n, seen);
      KidNumberSame(ty, Fields(ty)[i], raw, kids[i], n, seen, table);
      RunNumberSame(ty, i + 1, raw, kids, k.next, k.seen, table);
      assert kids[i..] == [kids[i]] + kids[i + 1..];
    }
  }

  lemma {:induction false} KidNumberSame(ty: Ty, f: Field, raw: bytes, kid: Kid, n: nat, seen: Cache, table: Cache)
    requires |raw| == Size(ty) && Fits(f, ty) && KidWf(ty, f, raw, kid) && KidAgrees(ty, f, raw, kid, table)
    requires SameChassis(seen, table)
    ensures var r := NumberKid(ty, f, raw, kid, n, seen); SameKid(r.item, kid) && SameChassis(r.seen, table)
    decreases kid, 0
  {
    hide Fields, Number, NumberRun, KidsWf, Wf, Agrees, KidsAgree, Slot, Inner, Same, SameKids;
    match f
    case Ptr(_, t) => if kid.Child? { NumberSame(t, kid.tree, n, seen, table); }
    case Shared(off) => if kid.Child? { NumberSame(ChassisBox, kid.tree, n, seen, table); }
    case Sub(off, t) =>
      RunNumberSame(t, 0, Inner(raw, off, t), kid.kids, n + 1, seen, table);
      assert kid.kids[0..] == kid.kids;
    case Inline(t) =>
      RunNumberSame(t, 0, raw, kid.kids, n, seen, table);
      assert kid.kids[0..] == kid.kids;
    case Check(_, _, _) =>
  }

  // ------------------------------------------------------------- equal in view

  lemma SameText(a: Kid, b: Kid)
    requires SameKid(a, b)
    ensures TextOf(a) == TextOf(b) && BytesOf(a) == BytesOf(b) && (a.Child? <==> b.Child?)
  {
  }

  lemma {:induction false} SameMgmt(a: Tree, b: Tree)
    requires Wf(Mgmt, a) && Wf(Mgmt, b) && Same(a, b)
    ensures MgmtOf(a) == MgmtOf(b)
    decreases a
  {
    hide Slot, MgmtAddress;
    KidAt(Mgmt, a, 0);
    KidAt(Mgmt, b, 0);
    assert SameKid(a.kids[0], b.kids[0]);
    if a.kids[0].Child? { SameMgmt(a.kids[0].tree, b.kids[0].tree); }
  }

  lemma SameChassisView(a: Tree, b: Tree)
    requires Wf(ChassisBox, a) && Wf(ChassisBox, b) && Same(a, b)
    ensures ChassisOf(a) == ChassisOf(b)
  {
    hide Slot, Le, TextOf, BytesOf, MgmtOf, SameKid;
    KidAt(ChassisBox, a, 3);
    KidAt(ChassisBox, b, 3);
    forall i | 0 <= i < 11 ensures TextOf(a.kids[i]) == TextOf(b.kids[i]) && BytesOf(a.kids[i]) == BytesOf(b.kids[i]) {
      SameText(a.kids[i], b.kids[i]);
    }
    SameMgmtKid(a.kids[3], b.kids[3]);
  }

  lemma SameMgmtKid(a: Kid, b: Kid)
    requires SameKid(a, b) && (a.Child? ==> Wf(Mgmt, a.tree)) && (b.Child? ==> Wf(Mgmt, b.tree))
    ensures a.Child? <==> b.Child?
    ensures a.Child? ==> MgmtOf(a.tree) == MgmtOf(b.tree)
  {
    hide Wf, MgmtOf;
    if a.Child? { SameMgmt(a.tree, b.tree); }
  }

  lemma SamePortView(raw: bytes, a: seq<Kid>, b: seq<Kid>)
    requires |raw| == PORT_SIZE && KidsWf(PortBody, raw, a) && KidsWf(PortBody, raw, b) && SameKids(a, b)
    ensures PortFieldsOf(raw, a) == PortFieldsOf(raw, b)
  {
    hide Slot, Fields, Wf, ChassisOf, TextOf, BytesOf, SameKid;
    PortBodySchema();
    assert KidWf(PortBody, Fields(PortBody)[0], raw, a[0]) && KidWf(PortBody, Fields(PortBody)[0], raw, b[0]);
    SameText(a[1], b[1]);
    SameText(a[2], b[2]);
    SameChassisKid(raw, a[0], b[0]);
  }

  lemma SameChassisKid(raw: bytes, a: Kid, b: Kid)
    requires |raw| == PORT_SIZE && SameKid(a, b)
    requires KidWf(PortBody, Shared(P_CHASSIS), raw, a) && KidWf(PortBody, Shared(P_CHASSIS), raw, b)
    ensures a.Child? <==> b.Child?
    ensures a.Child? ==> ChassisOf(a.tree) == ChassisOf(b.tree)
  {
    hide Slot, Wf, ChassisOf, Same;
    if a.Child? { SameChassisView(a.tree, b.tree); }
  }

  lemma {:induction false} SameNeighbors(a: Tree, b: Tree)
    requires Wf(NeighborPort, a) && Wf(NeighborPort, b) && Same(a, b)
    ensures NeighborsOf(a) == NeighborsOf(b)
    decreases a
  {
    hide Slot, Fields, PortFieldsOf, KidsWf, Le;
    PortSchema();
    NeighborShape(a);
    NeighborShape(b);
    assert SameKid(a.kids[0], b.kids[0]) && SameKid(a.kids[1], b.kids[1]);
    SamePortView(a.raw, a.kids[1].kids, b.kids[1].kids);
    if a.kids[0].Child? { SameNeighbors(a.kids[0].tree, b.kids[0].tree); }
  }

  lemma SameHardware(l: Layout, a: Tree, b: Tree)
    requires Wf(Hardware(l), a) && Wf(Hardware(l), b) && Same(a, b)
    ensures HardwareOf(l, a) == HardwareOf(l, b)
  {
    hide Slot, Fields, PortFieldsOf, KidsWf, UntilNul, NeighborsOf, TextOf, Inner;
    HardwareShape(l, a);
    HardwareShape(l, b);
    assert SameKid(a.kids[0], b.kids[0]) && SameKid(a.kids[1], b.kids[1]) && SameKid(a.kids[2], b.kids[2]);
    assert SameKids(a.kids[0].kids, b.kids[0].kids);
    assert SameKid(a.kids[0].kids[1], b.kids[0].kids[1]);
    SamePortView(Inner(a.raw, LocalPortOffset(l), LocalPort), a.kids[0].kids[1].kids, b.kids[0].kids[1].kids);
    SameText(a.kids[2], b.kids[2]);
    if a.kids[1].Child? { SameNeighbors(a.kids[1].tree, b.kids[1].tree); }
  }

  // ---------------------------------------------------------------- what is sent

  /** A hardware tree as a sender numbers it. */
  function Sent(l: Layout, t: Tree): (r: Tree)
    requires Wf(Hardware(l), t)
  {
    Number(Hardware(l), t, 1, map[]).item
  }

  /** Every tree with consistent sharing has a sequentially numbered one that says the same. */
  lemma SentSays(l: Layout, t: Tree, table: Cache) returns (table': Cache)
    requires Wf(Hardware(l), t) && Agrees(Hardware(l), t, table)
    ensures Wf(Hardware(l), Sent(l, t)) && Agrees(Hardware(l), Sent(l, t), table')
    ensures HardwareOf(l, Sent(l, t)) == HardwareOf(l, t)
    ensures Same(Sent(l, t), t)
    ensures |Message(Hardware(l), Sent(l, t))| < WORD_LIMIT ==> Sequential(Hardware(l), Sent(l, t))
  {
    hide Wf, Agrees, Number, HardwareOf, Origs, Emit, Same;
    assert CacheWf(map[]) && SameChassis(map[], table);
    NumberShares(Hardware(l), t, 1, map[]);
    NumberSame(Hardware(l), t, 1, map[], table);
    var r := Number(Hardware(l), t, 1, map[]);
    table' := r.seen;
    SameHardware(l, r.item, t);
    NumberOrigs(Hardware(l), t, 1, map[]);
    var none: Cache := map[];
    assert none.Keys == {};
    OrigsFit(Hardware(l), r.item, {});
  }
}
