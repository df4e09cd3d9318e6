/** Decoded results by value: every chassis in place of the object, or the use, that stands for it. */
module Values {
  import opened Bytes
  import opened Errors
  import opened Model
  import opened Marshal
  import opened Emitter
  import opened WellFormed
  import opened Sharing
  import opened View
  import opened Schemas
  import opened Uses
  import opened Decode

  function MapNeighbor<A, B>(n: Neighbor<A>, f: A -> B): Neighbor<B> {
    Neighbor(f(n.chassis), n.portIdSubtype, n.portId, n.portDescription, n.ttl)
  }

  function MapDetails<A, B>(d: InterfaceDetails<A>, f: A -> B): InterfaceDetails<B> {
    InterfaceDetails(
      d.name, d.alias, d.macAddress,
      if d.localChassis.Some? then Some(f(d.localChassis.value)) else None,
      seq(|d.neighbors|, i requires 0 <= i < |d.neighbors| => MapNeighbor(d.neighbors[i], f)))
  }

  function MapChange<A, B>(c: NeighborChange<A>, f: A -> B): NeighborChange<B> {
    NeighborChange(
      c.interface, c.interfaceAlias, c.kind,
      if c.neighbor.Some? then Some(MapNeighbor(c.neighbor.value, f)) else None)
  }

  function MapOk<A, B>(r: Result<A>, f: A -> B): Result<B> {
    match r
    case Ok(v) => Ok(f(v))
    case Err(e) => Err(e)
  }

  /** Reading a result through its objects changes no error and no success. */
  lemma ErrorsKept<A, B>(r: Result<A>, f: A -> B)
    ensures r.Err? <==> MapOk(r, f).Err?
    ensures r.Err? ==> MapOk(r, f).error == r.error
    ensures r.Ok? ==> MapOk(r, f).value == f(r.value)
  {
  }

  /** What the holder of a shared chassis sees. */
  function Deref(a: ChassisArc): Chassis {
    a.chassis
  }

  function Said(u: ChassisUse): Chassis {
    u.chassis
  }

  /** A neighbor but for its chassis. */
  predicate SameButChassis<A, B>(m: Neighbor<A>, n: Neighbor<B>) {
    && m.portIdSubtype == n.portIdSubtype && m.portId == n.portId
    && m.portDescription == n.portDescription && m.ttl == n.ttl
  }

  /** However chassis are held, nothing else about a record changes: no neighbor more or less, none out of place. */
  lemma DetailsKept<A, B>(d: InterfaceDetails<A>, f: A -> B)
    ensures var m := MapDetails(d, f);
            && m.name == d.name && m.alias == d.alias && m.macAddress == d.macAddress
            && (m.localChassis.Some? <==> d.localChassis.Some?)
            && (d.localChassis.Some? ==> m.localChassis.value == f(d.localChassis.value))
            && |m.neighbors| == |d.neighbors|
            && forall i | 0 <= i < |d.neighbors| ::
                 && SameButChassis(m.neighbors[i], d.neighbors[i])
                 && m.neighbors[i].chassis == f(d.neighbors[i].chassis)
  {
  }

  lemma ChangeKept<A, B>(c: NeighborChange<A>, f: A -> B)
    ensures var m := MapChange(c, f);
            && m.interface == c.interface && m.interfaceAlias == c.interfaceAlias && m.kind == c.kind
            && (m.neighbor.Some? <==> c.neighbor.Some?)
            && (c.neighbor.Some? ==>
                  && SameButChassis(m.neighbor.value, c.neighbor.value)
                  && m.neighbor.value.chassis == f(c.neighbor.value.chassis))
  {
  }

  type Details = InterfaceDetails<Chassis>
  type Change = NeighborChange<Chassis>

  function DetailsValue(d: InterfaceDetails<ChassisArc>): Details {
    MapDetails(d, Deref)
  }

  function ChangeValue(c: NeighborChange<ChassisArc>): Change {
    MapChange(c, Deref)
  }

  /** What a payload says about an interface, by value. */
  function DetailsIn(payload: bytes): Result<Details> {
    MapOk(HardwareIn(payload), d => MapDetails(d, Said))
  }

  function NoticeIn(payload: bytes): Result<Change> {
    MapOk(ChangeIn(payload), c => MapChange(c, Said))
  }

  /** Objects that share exactly say what the wire said. */
  lemma DetailsByValue(v: InterfaceDetails<ChassisUse>, e: map<nat, ChassisArc>, r: InterfaceDetails<ChassisArc>)
    requires BoundDetails(v, e, r) && SharesExactly(v, r)
    ensures DetailsValue(r) == MapDetails(v, Said)
  {
    forall i | 0 <= i < |v.neighbors| ensures MapNeighbor(r.neighbors[i], Deref) == MapNeighbor(v.neighbors[i], Said) {
      assert BoundNeighbor(v.neighbors[i], e, r.neighbors[i]);
    }
  }

  /** The notified port's chassis is the one its cache was left with. */
  lemma NoticeUses(payload: bytes)
    requires ChangeIn(payload).Ok? && ChangeIn(payload).value.neighbor.Some?
    ensures Faithful(ChangeIn(payload).value.neighbor.value.chassis, Walk(ChangeNotice, payload, 0, map[]).value.cache)
  {
    hide Walk, Wf, Agrees, Faithful, NeighborOf, Slot, Fields;
    assert CacheWf(map[]);
    WalkShares(ChangeNotice, payload, 0, map[]);
    var s := Walk(ChangeNotice, payload, 0, map[]).value;
    ChangeSchema();
    KidAt(ChangeNotice, s.item, 2);
    NoticeParts(s.item, s.cache);
    NotifiedUses(s.item.kids[2].tree, s.cache);
  }

  lemma NoticeParts(t: Tree, cache: Cache)
    requires Wf(ChangeNotice, t) && Agrees(ChangeNotice, t, cache)
    ensures t.Node? && |t.kids| == 3
    ensures t.kids[2].Child? ==> Wf(NotifiedPort, t.kids[2].tree) && Agrees(NotifiedPort, t.kids[2].tree, cache)
  {
    hide Fields, Slot;
    ChangeSchema();
    KidAt(ChangeNotice, t, 2);
    assert KidsAgree(ChangeNotice, t.raw, t.kids, cache);
    assert KidAgrees(ChangeNotice, Fields(ChangeNotice)[2], t.raw, t.kids[2], cache);
  }

  lemma NotifiedUses(t: Tree, cache: Cache)
    requires Wf(NotifiedPort, t) && Agrees(NotifiedPort, t, cache)
    ensures Faithful(NeighborOf(NotifiedPort, t).chassis, cache)
  {
    hide Fields, Slot, Faithful, PortFieldsOf;
    PortSchema();
    KidAt(NotifiedPort, t, 1);
    KidAt(NotifiedPort, t, 2);
    assert KidsAgree(NotifiedPort, t.raw, t.kids, cache);
    assert KidAgrees(NotifiedPort, Fields(NotifiedPort)[1], t.raw, t.kids[1], cache);
    BodyUses(t.raw, t.kids[1].kids, cache);
  }

  /** A decoded notice, with its object read through. */
  lemma ChangeByValue(payload: bytes, e: map<nat, ChassisArc>, r: NeighborChange<ChassisArc>)
    requires ChangeIn(payload).Ok? && BoundChange(ChangeIn(payload).value, e, r)
    requires Mirrors(e, Walk(ChangeNotice, payload, 0, map[]).value.cache)
    ensures ChangeValue(r) == MapChange(ChangeIn(payload).value, Said)
  {
    hide ChangeIn, Walk, ChassisOf, Wf;
    if ChangeIn(payload).value.neighbor.Some? { NoticeUses(payload); }
  }
}
