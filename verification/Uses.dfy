/**
 The chassis uses of a decoded record against the cache the decode ended with:
 the cache holds exactly the ids used, and every use says what the cache says.
 */
module Uses {
  import opened Bytes
  import opened Errors
  import opened Raw
  import opened Model
  import opened Marshal
  import opened Emitter
  import opened WellFormed
  import opened Sharing
  import opened View
  import opened Schemas

  predicate Faithful(u: ChassisUse, cache: Cache) {
    u.id in cache && Wf(ChassisBox, cache[u.id]) && u.chassis == ChassisOf(cache[u.id])
  }

  function NeighborIds(ns: seq<Neighbor<ChassisUse>>): set<nat> {
    set n | n in ns :: n.chassis.id
  }

  function LocalIds(c: Option<ChassisUse>): set<nat> {
    match c
    case None => {}
    case Some(u) => {u.id}
  }

  function DetailIds(d: InterfaceDetails<ChassisUse>): set<nat> {
    LocalIds(d.localChassis) + NeighborIds(d.neighbors)
  }

  predicate AllFaithful(d: InterfaceDetails<ChassisUse>, cache: Cache) {
    && (d.localChassis.Some? ==> Faithful(d.localChassis.value, cache))
    && forall n | n in d.neighbors :: Faithful(n.chassis, cache)
  }

  lemma PortBodyClosed()
    ensures |Fields(PortBody)| == 10 && Fields(PortBody)[0] == Shared(P_CHASSIS)
    ensures forall i | 1 <= i < 10 :: FieldClosed(Fields(PortBody)[i])
  {
  }

  lemma {:induction false} BodyTailIds(i: nat, raw: bytes, kids: seq<Kid>)
    requires |raw| == PORT_SIZE && KidsWf(PortBody, raw, kids) && 1 <= i <= 10
    ensures KidsIds(PortBody, i, raw, kids) == {}
    decreases 10 - i
  {
    hide Fields, FieldClosed, KidWf, KidIds;
    PortBodyClosed();
    if i < 10 {
      ClosedKidIds(PortBody, Fields(PortBody)[i], raw, kids[i]);
      BodyTailIds(i + 1, raw, kids);
    }
  }

  lemma BodyUses(raw: bytes, kids: seq<Kid>, cache: Cache)
    requires |raw| == PORT_SIZE && KidsWf(PortBody, raw, kids) && KidsAgree(PortBody, raw, kids, cache)
    ensures var c := PortFieldsOf(raw, kids).chassis;
            && (c.Some? <==> Slot(raw, P_CHASSIS) != 0)
            && (c.Some? ==> Faithful(c.value, cache))
            && KidsIds(PortBody, 0, raw, kids) == LocalIds(c)
  {
    hide Slot, ChassisOf, Wf, BytesOf, TextOf, Fields;
    PortBodyClosed();
    BodyTailIds(1, raw, kids);
    assert KidWf(PortBody, Fields(PortBody)[0], raw, kids[0]);
    assert KidAgrees(PortBody, Fields(PortBody)[0], raw, kids[0], cache);
    assert KidsIds(PortBody, 0, raw, kids)
        == KidIds(PortBody, Shared(P_CHASSIS), raw, kids[0]) + KidsIds(PortBody, 1, raw, kids);
  }

  /** The ids of a chained port are those of its parts. */
  lemma NeighborParts(t: Tree, cache: Cache)
    requires Wf(NeighborPort, t) && Agrees(NeighborPort, t, cache)
    requires t.Node? && |t.raw| == PORT_SIZE && |t.kids| == 3 && t.kids[1].Group? && KidsWf(PortBody, t.raw, t.kids[1].kids)
    ensures KidsAgree(PortBody, t.raw, t.kids[1].kids, cache)
    ensures t.kids[0].Child? ==> Wf(NeighborPort, t.kids[0].tree) && Agrees(NeighborPort, t.kids[0].tree, cache)
    ensures Ids(NeighborPort, t)
         == (if t.kids[0].Child? then Ids(NeighborPort, t.kids[0].tree) else {}) + KidsIds(PortBody, 0, t.raw, t.kids[1].kids)
  {
    hide Slot, Fields;
    PortSchema();
    KidAt(NeighborPort, t, 0);
    assert KidsAgree(NeighborPort, t.raw, t.kids, cache);
    assert KidAgrees(NeighborPort, Fields(NeighborPort)[0], t.raw, t.kids[0], cache);
    assert KidAgrees(NeighborPort, Fields(NeighborPort)[1], t.raw, t.kids[1], cache);
    assert KidsIds(NeighborPort, 3, t.raw, t.kids) == {};
    assert KidsIds(NeighborPort, 2, t.raw, t.kids) == {};
    assert KidsIds(NeighborPort, 0, t.raw, t.kids)
        == KidIds(NeighborPort, Fields(NeighborPort)[0], t.raw, t.kids[0]) + KidsIds(NeighborPort, 1, t.raw, t.kids);
    assert KidsIds(NeighborPort, 1, t.raw, t.kids) == KidsIds(PortBody, 0, t.raw, t.kids[1].kids);
  }

  lemma {:induction false} NeighborUses(t: Tree, cache: Cache)
    requires Wf(NeighborPort, t) && Agrees(NeighborPort, t, cache)
    ensures forall n | n in NeighborsOf(t) :: Faithful(n.chassis, cache)
    ensures Ids(NeighborPort, t) == NeighborIds(NeighborsOf(t))
    decreases t
  {
    hide Slot, Fields, Wf, Agrees, KidsAgree, KidsWf, KidsIds, Ids, Faithful, PortFieldsOf;
    NeighborShape(t);
    NeighborParts(t, cache);
    BodyUses(t.raw, t.kids[1].kids, cache);
    var own := NeighborView(t.raw, t.kids[1].kids);
    var rest := if t.kids[0].Child? then NeighborsOf(t.kids[0].tree) else [];
    if t.kids[0].Child? { NeighborUses(t.kids[0].tree, cache); }
    assert NeighborsOf(t) == [own] + rest;
    assert NeighborIds([own] + rest) == {own.chassis.id} + NeighborIds(rest);
    assert forall n | n in [own] + rest :: n == own || n in rest;
  }

  /** The embedded local port's ids are those of its body. */
  lemma LocalParts(l: Layout, t: Tree, cache: Cache)
    requires Wf(Hardware(l), t) && Agrees(Hardware(l), t, cache)
    requires t.Node? && |t.raw| == Size(Hardware(l)) && |t.kids| == 3 && t.kids[0].Marked?
    requires |t.kids[0].kids| == 2 && t.kids[0].kids[1].Group?
    requires KidsWf(PortBody, Inner(t.raw, LocalPortOffset(l), LocalPort), t.kids[0].kids[1].kids)
    ensures KidWf(Hardware(l), Fields(Hardware(l))[0], t.raw, t.kids[0])
    ensures var local, kids := Inner(t.raw, LocalPortOffset(l), LocalPort), t.kids[0].kids[1].kids;
            && KidsAgree(PortBody, local, kids, cache)
            && KidIds(Hardware(l), Fields(Hardware(l))[0], t.raw, t.kids[0]) == KidsIds(PortBody, 0, local, kids)
  {
    hide Slot, Fields, Inner;
    HardwareSchema(l);
    PortSchema();
    KidAt(Hardware(l), t, 0);
    assert KidsAgree(Hardware(l), t.raw, t.kids, cache);
    assert KidAgrees(Hardware(l), Fields(Hardware(l))[0], t.raw, t.kids[0], cache);
    var local, kids := Inner(t.raw, LocalPortOffset(l), LocalPort), t.kids[0].kids;
    assert KidsWf(LocalPort, local, kids) && KidsAgree(LocalPort, local, kids, cache);
    assert KidWf(LocalPort, Fields(LocalPort)[1], local, kids[1]);
    assert KidAgrees(LocalPort, Fields(LocalPort)[1], local, kids[1], cache);
    assert KidsIds(LocalPort, 2, local, kids) == {};
    assert KidsIds(LocalPort, 1, local, kids) == KidsIds(PortBody, 0, local, kids[1].kids);
    assert KidsIds(LocalPort, 0, local, kids) == KidsIds(LocalPort, 1, local, kids);
  }

  lemma HardwareUses(l: Layout, t: Tree, cache: Cache)
    requires Wf(Hardware(l), t) && Agrees(Hardware(l), t, cache)
    ensures AllFaithful(HardwareOf(l, t), cache)
    ensures Ids(Hardware(l), t) == DetailIds(HardwareOf(l, t))
  {
    hide Slot, Fields, Inner, NeighborsOf, PortFieldsOf, UntilNul, TextOf, Faithful, KidsAgree, KidsWf, Closed;
    HardwareSchema(l);
    HardwareShape(l, t);
    LocalParts(l, t, cache);
    BodyUses(Inner(t.raw, LocalPortOffset(l), LocalPort), t.kids[0].kids[1].kids, cache);
    ChainAndAlias(l, t, cache);
    if t.kids[1].Child? { NeighborUses(t.kids[1].tree, cache); }
  }

  lemma ChainAndAlias(l: Layout, t: Tree, cache: Cache)
    requires Wf(Hardware(l), t) && Agrees(Hardware(l), t, cache)
    ensures t.Node? && |t.kids| == 3 && |t.raw| == Size(Hardware(l))
    ensures KidsWf(Hardware(l), t.raw, t.kids)
    ensures t.kids[1].Child? ==> Wf(NeighborPort, t.kids[1].tree) && Agrees(NeighborPort, t.kids[1].tree, cache)
    ensures Ids(Hardware(l), t)
         == KidIds(Hardware(l), Fields(Hardware(l))[0], t.raw, t.kids[0])
            + if t.kids[1].Child? then Ids(NeighborPort, t.kids[1].tree) else {}
  {
    hide Slot, Fields, Inner;
    HardwareSchema(l);
    KidAt(Hardware(l), t, 1);
    KidAt(Hardware(l), t, 2);
    assert KidsAgree(Hardware(l), t.raw, t.kids, cache);
    assert KidAgrees(Hardware(l), Fields(Hardware(l))[1], t.raw, t.kids[1], cache);
    if t.kids[2].Child? { ClosedIds(CString, t.kids[2].tree); }
    assert KidsIds(Hardware(l), 3, t.raw, t.kids) == {};
    assert KidsIds(Hardware(l), 2, t.raw, t.kids) == {};
    assert KidsIds(Hardware(l), 1, t.raw, t.kids)
        == KidIds(Hardware(l), Fields(Hardware(l))[1], t.raw, t.kids[1]) + KidsIds(Hardware(l), 2, t.raw, t.kids);
    assert KidsIds(Hardware(l), 0, t.raw, t.kids)
        == KidIds(Hardware(l), Fields(Hardware(l))[0], t.raw, t.kids[0]) + KidsIds(Hardware(l), 1, t.raw, t.kids);
  }

  /**
   After any accepted hardware message: the cache holds exactly the ids in use,
   nothing else was read into it, and each use carries the cached chassis.
   */
  lemma CacheIsExact(l: Layout, payload: bytes)
    requires HardwareAs(l, payload).Ok?
    ensures var cache := Walk(Hardware(l), payload, 0, map[]).value.cache;
            && cache.Keys == DetailIds(HardwareAs(l, payload).value)
            && AllFaithful(HardwareAs(l, payload).value, cache)
  {
    hide Walk, HardwareOf, AllFaithful, DetailIds, Ids, Wf, Agrees;
    assert CacheWf(map[]);
    WalkShares(Hardware(l), payload, 0, map[]);
    var s := Walk(Hardware(l), payload, 0, map[]).value;
    HardwareUses(l, s.item, s.cache);
  }
}
