/**
 The decoders. Each one advances a shared cursor; each is proved to return what
 the schema-driven reader of module Marshal finds at that position, to fail with
 the same reason, and to leave the cursor at the same place.
 */
module Decode {
  import opened Bytes
  import opened Errors
  import opened Raw
  import opened Model
  import opened Marshal
  import opened Unfolding
  import opened WellFormed
  import opened Sharing
  import opened Counting
  import opened View
  import opened Schemas
  import opened Uses
  import opened Cursors

  // ------------------------------------------------ what is found at a position

  function InterfacesAt(buf: bytes, pos: nat): Result<seq<Interface>> {
    WalkWf(Iface, buf, pos, map[]);
    match Walk(Iface, buf, pos, map[])
    case Bad(reason, _) => Err(Protocol(reason))
    case Got(s, _) => Ok(InterfacesOf(s.item))
  }

  function MgmtAt(buf: bytes, pos: nat): Result<seq<ManagementAddress>> {
    WalkWf(Mgmt, buf, pos, map[]);
    match Walk(Mgmt, buf, pos, map[])
    case Bad(reason, _) => Err(Protocol(reason))
    case Got(s, _) => Ok(MgmtOf(s.item))
  }

  function ChassisAt(buf: bytes, pos: nat): Result<Chassis> {
    WalkWf(ChassisBox, buf, pos, map[]);
    match Walk(ChassisBox, buf, pos, map[])
    case Bad(reason, _) => Err(Protocol(reason))
    case Got(s, _) => Ok(ChassisOf(s.item))
  }

  /** One step of a run over an optional chunk of a closed type. */
  lemma Advance(ty: Ty, i: nat, raw: bytes, buf: bytes, pos: nat, cache: Cache, kids: seq<Kid>)
    returns (kids': seq<Kid>)
    requires |raw| == Size(ty) && i < |Fields(ty)| && pos <= |buf|
    requires Fields(ty)[i].Ptr? && Closed(Fields(ty)[i].target)
    ensures var o := OptWalk(Fields(ty)[i].target, buf, pos, Slot(raw, Fields(ty)[i].off));
            && Run(ty, i, raw, buf, pos, cache, kids)
               == (if o.Bad? then Bad(o.reason, o.pos) else Run(ty, i + 1, raw, buf, o.pos, cache, kids'))
            && (o.Got? ==> kids' == kids + [o.value])
  {
    hide Fields, Walk, Slot, Closed;
    var f := Fields(ty)[i];
    ClosedWalk(f.target, buf, pos, cache);
    var o := OptWalk(f.target, buf, pos, Slot(raw, f.off));
    kids' := if o.Got? then kids + [o.value] else kids;
    assert Step(ty, f, raw, buf, pos, cache) == if o.Bad? then Bad(o.reason, o.pos) else Got(Seen(o.value, cache), o.pos);
  }

  lemma OptIs(ty: Ty, buf: bytes, pos: nat, ptr: nat)
    ensures ptr == 0 ==> OptWalk(ty, buf, pos, ptr) == Got(Absent, pos)
    ensures ptr != 0 ==>
              var w := Walk(ty, buf, pos, map[]);
              OptWalk(ty, buf, pos, ptr) == if w.Bad? then Bad(w.reason, w.pos) else Got(Child(w.value.item), w.pos)
  {
    hide Walk;
  }

  // ------------------------------------------------------------- simple chains

  // `level` is the number of chain decoders whose calls are still open, of whatever
  // lists. That it can be kept, for any bytes at all, is the bound on the recursion:
  // a call with n others open starts at least n times 40 bytes into the payload.

  /** The smallest struct chunk of any list. */
  const CHAIN_LINK: nat := HEADER + PPVID_SIZE

  lemma InterfaceView(orig: nat, raw: bytes, k: seq<Kid>)
    requires Wf(Iface, Node(orig, raw, k)) && |k| == 3
    ensures k[0].Child? ==> Wf(Iface, k[0].tree)
    ensures InterfacesOf(Node(orig, raw, k))
         == [Interface(GetOrEmpty(TextOf(k[1])), TextOf(k[2]))] + if k[0].Child? then InterfacesOf(k[0].tree) else []
  {
    hide TextOf, Slot;
    KidAt(Iface, Node(orig, raw, k), 0);
  }

  method DecodeInterfaceChain(cursor: Cursor, ghost level: nat) returns (r: Result<seq<Interface>>)
    requires cursor.pos <= |cursor.buf| && level * CHAIN_LINK <= cursor.pos
    modifies cursor
    ensures r == InterfacesAt(cursor.buf, old(cursor.pos))
    ensures cursor.pos == Walk(Iface, cursor.buf, old(cursor.pos), map[]).pos
    decreases |cursor.buf| - cursor.pos
  {
    hide Walk, Run, Step, ReadPod, Slot, TextOf, KidWf, Wf, InterfacesOf, Fields, OptWalk;
    IfaceSchema();
    WalkWf(Iface, cursor.buf, cursor.pos, map[]);
    PodFound(Iface, cursor.buf, cursor.pos, map[]);
    ghost var pod := ReadPod(cursor.buf, cursor.pos, INTERFACE_SIZE);
    var raw :- ReadChunkPod(cursor, Iface);
    ghost var k := Advance(Iface, 0, raw, cursor.buf, cursor.pos, map[], []);
    var rest := [];
    OptIs(Iface, cursor.buf, cursor.pos, Slot(raw, TQE_NEXT));
    if Slot(raw, TQE_NEXT) != 0 { rest :- DecodeInterfaceChain(cursor, level + 1); }
    k := Advance(Iface, 1, raw, cursor.buf, cursor.pos, map[], k);
    var name :- ReadOptCString(cursor, Slot(raw, I_NAME));
    k := Advance(Iface, 2, raw, cursor.buf, cursor.pos, map[], k);
    var alias :- ReadOptCString(cursor, Slot(raw, I_ALIAS));
    RunEnd(Iface, raw, cursor.buf, cursor.pos, map[], k);
    InterfaceView(pod.value.0, raw, k);
    var out := [Interface(GetOrEmpty(name), alias)];
    return Ok(out + rest);
  }

  method DecodeMgmtChain(cursor: Cursor, ghost level: nat) returns (r: Result<seq<ManagementAddress>>)
    requires cursor.pos <= |cursor.buf| && level * CHAIN_LINK <= cursor.pos
    modifies cursor
    ensures r == MgmtAt(cursor.buf, old(cursor.pos))
    ensures cursor.pos == Walk(Mgmt, cursor.buf, old(cursor.pos), map[]).pos
    decreases |cursor.buf| - cursor.pos
  {
    hide Walk, Run, Step, ReadPod, Slot, KidWf, Wf, Le;
    PodFound(Mgmt, cursor.buf, cursor.pos, map[]);
    var raw :- ReadChunkPod(cursor, Mgmt);
    ghost var k := Advance(Mgmt, 0, raw, cursor.buf, cursor.pos, map[], []);
    var rest := [];
    if Slot(raw, TQE_NEXT) != 0 { rest :- DecodeMgmtChain(cursor, level + 1); }
    RunEnd(Mgmt, raw, cursor.buf, cursor.pos, map[], k);
    var addrSize := Slot(raw, M_ADDRSIZE);
    var len := if addrSize < M_MAXADDR then addrSize else M_MAXADDR;
    var out := [ManagementAddress(Le(raw[M_FAMILY..M_FAMILY + 4]), raw[M_ADDR..M_ADDR + len], Le(raw[M_IFACE..M_IFACE + 4]))];
    return Ok(out + rest);
  }

  // VLAN, PPVID and PI chunks are walked so that parsing stays in step; nothing is kept.

  method DiscardVlanChain(cursor: Cursor, ghost level: nat) returns (r: Result<()>)
    requires cursor.pos <= |cursor.buf| && level * CHAIN_LINK <= cursor.pos
    modifies cursor
    ensures var w := Walk(Vlan, cursor.buf, old(cursor.pos), map[]);
            cursor.pos == w.pos && r == if w.Bad? then Err(Protocol(w.reason)) else Ok(())
    decreases |cursor.buf| - cursor.pos
  {
    hide Walk, Run, Step, ReadPod, Slot;
    PodFound(Vlan, cursor.buf, cursor.pos, map[]);
    var raw :- ReadChunkPod(cursor, Vlan);
    ghost var k := Advance(Vlan, 0, raw, cursor.buf, cursor.pos, map[], []);
    if Slot(raw, TQE_NEXT) != 0 { var _ :- DiscardVlanChain(cursor, level + 1); }
    k := Advance(Vlan, 1, raw, cursor.buf, cursor.pos, map[], k);
    var _ :- ReadOptCString(cursor, Slot(raw, V_NAME));
    RunEnd(Vlan, raw, cursor.buf, cursor.pos, map[], k);
    return Ok(());
  }

  method DiscardPpvidChain(cursor: Cursor, ghost level: nat) returns (r: Result<()>)
    requires cursor.pos <= |cursor.buf| && level * CHAIN_LINK <= cursor.pos
    modifies cursor
    ensures var w := Walk(Ppvid, cursor.buf, old(cursor.pos), map[]);
            cursor.pos == w.pos && r == if w.Bad? then Err(Protocol(w.reason)) else Ok(())
    decreases |cursor.buf| - cursor.pos
  {
    hide Walk, Run, Step, ReadPod, Slot;
    PodFound(Ppvid, cursor.buf, cursor.pos, map[]);
    var raw :- ReadChunkPod(cursor, Ppvid);
    ghost var k := Advance(Ppvid, 0, raw, cursor.buf, cursor.pos, map[], []);
    if Slot(raw, TQE_NEXT) != 0 { var _ :- DiscardPpvidChain(cursor, level + 1); }
    RunEnd(Ppvid, raw, cursor.buf, cursor.pos, map[], k);
    return Ok(());
  }

  method DiscardPiChain(cursor: Cursor, ghost level: nat) returns (r: Result<()>)
    requires cursor.pos <= |cursor.buf| && level * CHAIN_LINK <= cursor.pos
    modifies cursor
    ensures var w := Walk(Pi, cursor.buf, old(cursor.pos), map[]);
            cursor.pos == w.pos && r == if w.Bad? then Err(Protocol(w.reason)) else Ok(())
    decreases |cursor.buf| - cursor.pos
  {
    hide Walk, Run, Step, ReadPod, Slot;
    PodFound(Pi, cursor.buf, cursor.pos, map[]);
    var raw :- ReadChunkPod(cursor, Pi);
    ghost var k := Advance(Pi, 0, raw, cursor.buf, cursor.pos, map[], []);
    if Slot(raw, TQE_NEXT) != 0 { var _ :- DiscardPiChain(cursor, level + 1); }
    k := Advance(Pi, 1, raw, cursor.buf, cursor.pos, map[], k);
    var _ :- ReadOptBytes(cursor, Slot(raw, P_PI));
    RunEnd(Pi, raw, cursor.buf, cursor.pos, map[], k);
    return Ok(());
  }

  // ------------------------------------------------------------------ chassis

  /** The seven inventory strings, built in place by the chassis decoder. */
  method ReadMedInventory(cursor: Cursor, raw: bytes, ghost k0: seq<Kid>)
    returns (r: Result<MedInventory>, ghost k: seq<Kid>)
    requires |raw| == CHASSIS_SIZE && cursor.pos <= |cursor.buf| && |k0| == 4
    modifies cursor
    ensures var run := Run(ChassisBox, 4, raw, cursor.buf, old(cursor.pos), map[], k0);
            && cursor.pos == run.pos
            && (run.Bad? ==> r == Err(Protocol(run.reason)))
            && (run.Got? ==> run.value == Seen(k, map[]) && |k| == 11 && k[..4] == k0 && r == Ok(MedOf(k)))
  {
    hide Walk, Run, Step, Slot, TextOf, KidWf, Wf, KidsWf, Fields, OptWalk;
    ChassisSchema();
    k := Advance(ChassisBox, 4, raw, cursor.buf, cursor.pos, map[], k0);
    var hw :- ReadOptCString(cursor, Slot(raw, C_MED_HW));
    k := Advance(ChassisBox, 5, raw, cursor.buf, cursor.pos, map[], k);
    var fw :- ReadOptCString(cursor, Slot(raw, C_MED_FW));
    k := Advance(ChassisBox, 6, raw, cursor.buf, cursor.pos, map[], k);
    var sw :- ReadOptCString(cursor, Slot(raw, C_MED_SW));
    k := Advance(ChassisBox, 7, raw, cursor.buf, cursor.pos, map[], k);
    var sn :- ReadOptCString(cursor, Slot(raw, C_MED_SN));
    k := Advance(ChassisBox, 8, raw, cursor.buf, cursor.pos, map[], k);
    var manuf :- ReadOptCString(cursor, Slot(raw, C_MED_MANUF));
    k := Advance(ChassisBox, 9, raw, cursor.buf, cursor.pos, map[], k);
    var model :- ReadOptCString(cursor, Slot(raw, C_MED_MODEL));
    k := Advance(ChassisBox, 10, raw, cursor.buf, cursor.pos, map[], k);
    var asset :- ReadOptCString(cursor, Slot(raw, C_MED_ASSET));
    RunEnd(ChassisBox, raw, cursor.buf, cursor.pos, map[], k);
    return Ok(MedInventory(hw, fw, sw, sn, manuf, model, asset)), k;
  }

  /** An optional management chain, as the chassis decoder sees it. */
  lemma MgmtFound(buf: bytes, pos: nat, ptr: nat)
    ensures ptr == 0 ==> OptWalk(Mgmt, buf, pos, ptr) == Got(Absent, pos)
    ensures ptr != 0 ==>
              var o := OptWalk(Mgmt, buf, pos, ptr);
              && o.pos == Walk(Mgmt, buf, pos, map[]).pos
              && (o.Bad? ==> MgmtAt(buf, pos) == Err(Protocol(o.reason)))
              && (o.Got? ==> o.value.Child? && Wf(Mgmt, o.value.tree) && MgmtAt(buf, pos) == Ok(MgmtOf(o.value.tree)))
  {
    hide Walk, MgmtOf, Wf;
    WalkWf(Mgmt, buf, pos, map[]);
  }

  method ReadChassisFields(cursor: Cursor, raw: bytes, ghost level: nat) returns (r: Result<Chassis>, ghost k: seq<Kid>)
    requires |raw| == CHASSIS_SIZE && cursor.pos <= |cursor.buf|
    requires level * CHAIN_LINK <= cursor.pos
    modifies cursor
    ensures var run := Run(ChassisBox, 0, raw, cursor.buf, old(cursor.pos), map[], []);
            && cursor.pos == run.pos
            && (run.Bad? ==> r == Err(Protocol(run.reason)))
            && (run.Got? ==>
                  && run.value == Seen(k, map[]) && |k| == 11
                  && (k[3].Child? ==> Wf(Mgmt, k[3].tree))
                  && r == Ok(ChassisFrom(raw, BytesOf(k[0]), TextOf(k[1]), TextOf(k[2]),
                                         if k[3].Child? then MgmtOf(k[3].tree) else [], MedOf(k))))
  {
    hide Walk, Run, Step, Slot, TextOf, BytesOf, Wf, Fields, MgmtOf, MgmtAt, MedOf, OptWalk, Le;
    ChassisSchema();
    k := Advance(ChassisBox, 0, raw, cursor.buf, cursor.pos, map[], []);
    var id :- ReadOptBytes(cursor, Slot(raw, C_ID));
    k := Advance(ChassisBox, 1, raw, cursor.buf, cursor.pos, map[], k);
    var name :- ReadOptCString(cursor, Slot(raw, C_NAME));
    k := Advance(ChassisBox, 2, raw, cursor.buf, cursor.pos, map[], k);
    var description :- ReadOptCString(cursor, Slot(raw, C_DESCR));
    k := Advance(ChassisBox, 3, raw, cursor.buf, cursor.pos, map[], k);
    MgmtFound(cursor.buf, cursor.pos, Slot(raw, C_MGMT_FIRST));
    ghost var k4 := k;
    var managementAddresses := [];
    if Slot(raw, C_MGMT_FIRST) != 0 { managementAddresses :- DecodeMgmtChain(cursor, level); }
    var med;
    med, k :- ReadMedInventory(cursor, raw, k);
    assert forall j | 0 <= j < 4 :: k[j] == k[..4][j] == k4[j];
    return Ok(Chassis(
      raw[C_ID_SUBTYPE], GetOrEmpty(id), name, description,
      Le(raw[C_CAP_AVAILABLE..C_CAP_AVAILABLE + 2]), Le(raw[C_CAP_ENABLED..C_CAP_ENABLED + 2]),
      managementAddresses, med)), k;
  }

  method DecodeChassis(cursor: Cursor, ghost level: nat) returns (r: Result<Chassis>)
    requires cursor.pos <= |cursor.buf|
    requires level * CHAIN_LINK <= cursor.pos
    modifies cursor
    ensures r == ChassisAt(cursor.buf, old(cursor.pos))
    ensures cursor.pos == Walk(ChassisBox, cursor.buf, old(cursor.pos), map[]).pos
  {
    hide Walk, Run, ReadPod, TextOf, BytesOf, Wf, MgmtOf, ChassisFrom, MedOf;
    WalkWf(ChassisBox, cursor.buf, cursor.pos, map[]);
    PodFound(ChassisBox, cursor.buf, cursor.pos, map[]);
    var raw :- ReadChunkPod(cursor, ChassisBox);
    ghost var k;
    r, k := ReadChassisFields(cursor, raw, level);
  }

  // ------------------------------------------------- what a port leaves unsurfaced

  /** What a location slot contributes: a marker header, and its data if there is any. */
  function MarkedWalk(buf: bytes, pos: nat, loc: bytes): (r: Read<Kid>)
    requires |loc| == MED_LOC_SIZE
    ensures r.Got? && pos <= |buf| ==> pos <= r.pos <= |buf|
  {
    var ((orig, _), p) :- ReadHeader(buf, pos);
    var (data, q) :- OptWalk(Blob, buf, p, Slot(loc, LOC_DATA));
    Got(Marked(orig, [data]), q)
  }

  method DecodeMedLocationMarker(cursor: Cursor, loc: bytes) returns (r: Result<()>)
    requires |loc| == MED_LOC_SIZE
    modifies cursor
    ensures var m := MarkedWalk(cursor.buf, old(cursor.pos), loc);
            cursor.pos == m.pos && r == if m.Bad? then Err(Protocol(m.reason)) else Ok(())
  {
    var _ :- ConsumeSubstructMarker(cursor);
    if Slot(loc, LOC_DATA) != 0 { var _ :- ReadOptBytes(cursor, Slot(loc, LOC_DATA)); }
    return Ok(());
  }

  lemma AdvanceMarked(i: nat, raw: bytes, buf: bytes, pos: nat, cache: Cache, kids: seq<Kid>) returns (kids': seq<Kid>)
    requires |raw| == PORT_SIZE && 4 <= i < 7 && pos <= |buf|
    ensures var off := P_MED_LOCATION_0 + MED_LOC_SIZE * (i - 4);
            var m := MarkedWalk(buf, pos, Inner(raw, off, MedLoc));
            && Run(PortBody, i, raw, buf, pos, cache, kids)
               == (if m.Bad? then Bad(m.reason, m.pos) else Run(PortBody, i + 1, raw, buf, m.pos, cache, kids'))
            && (m.Got? ==> kids' == kids + [m.value])
  {
    hide Fields, Inner, Slot, OptWalk, ReadHeader, Walk;
    PortBodySchema();
    var off := P_MED_LOCATION_0 + MED_LOC_SIZE * (i - 4);
    var loc := Inner(raw, off, MedLoc);
    var m := MarkedWalk(buf, pos, loc);
    kids' := if m.Got? then kids + [m.value] else kids;
    var f := Fields(PortBody)[4 + (i - 4)];
    assert f == Sub(off, MedLoc);
    var h := ReadHeader(buf, pos);
    if h.Got? {
      var k := Advance(MedLoc, 0, loc, buf, h.pos, cache, []);
      var o := OptWalk(Blob, buf, h.pos, Slot(loc, LOC_DATA));
      if o.Got? {
        assert k == [o.value];
        RunEnd(MedLoc, loc, buf, o.pos, cache, k);
      }
    }
    assert Step(PortBody, f, raw, buf, pos, cache) == if m.Bad? then Bad(m.reason, m.pos) else Got(Seen(m.value, cache), m.pos);
  }

  /** The three location slots. */
  method SkipLocations(cursor: Cursor, raw: bytes, ghost cache: Cache, ghost k0: seq<Kid>)
    returns (r: Result<()>, ghost k: seq<Kid>)
    requires |raw| == PORT_SIZE && cursor.pos <= |cursor.buf| && |k0| == 4
    modifies cursor
    ensures var run := Run(PortBody, 4, raw, cursor.buf, old(cursor.pos), cache, k0);
            && (r.Err? ==> r.error.Protocol? && run == Bad(r.error.reason, cursor.pos))
            && (r.Ok? ==>
                  && old(cursor.pos) <= cursor.pos <= |cursor.buf| && |k| == 7 && k[..4] == k0
                  && run == Run(PortBody, 7, raw, cursor.buf, cursor.pos, cache, k))
  {
    hide Walk, Run, Step, Slot, Wf, Fields, MarkedWalk, Inner;
    PortBodySchema();
    k := k0;
    for i := 0 to 3
      invariant old(cursor.pos) <= cursor.pos <= |cursor.buf| && |k| == 4 + i && k[..4] == k0
      invariant Run(PortBody, 4, raw, cursor.buf, old(cursor.pos), cache, k0)
                == Run(PortBody, 4 + i, raw, cursor.buf, cursor.pos, cache, k)
    {
      k := AdvanceMarked(4 + i, raw, cursor.buf, cursor.pos, cache, k);
      var _ :- DecodeMedLocationMarker(cursor, Inner(raw, P_MED_LOCATION_0 + MED_LOC_SIZE * i, MedLoc));
    }
    return Ok(()), k;
  }

  method SkipVlans(cursor: Cursor, raw: bytes, ghost cache: Cache, ghost k0: seq<Kid>, ghost level: nat)
    returns (r: Result<()>, ghost k: seq<Kid>)
    requires |raw| == PORT_SIZE && cursor.pos <= |cursor.buf| && |k0| == 7
    requires level * CHAIN_LINK <= cursor.pos
    modifies cursor
    ensures |Fields(PortBody)| == 10
    ensures var run := Run(PortBody, 7, raw, cursor.buf, old(cursor.pos), cache, k0);
            && (r.Err? ==> r.error.Protocol? && run == Bad(r.error.reason, cursor.pos))
            && (r.Ok? ==>
                  && old(cursor.pos) <= cursor.pos <= |cursor.buf| && |k| == 8 && k[..7] == k0
                  && run == Run(PortBody, 8, raw, cursor.buf, cursor.pos, cache, k))
  {
    hide Walk, Run, Step, Slot, Wf, Fields, OptWalk;
    PortBodySchema();
    k := Advance(PortBody, 7, raw, cursor.buf, cursor.pos, cache, k0);
    OptIs(Vlan, cursor.buf, cursor.pos, Slot(raw, P_VLANS_FIRST));
    if Slot(raw, P_VLANS_FIRST) != 0 { var _ :- DiscardVlanChain(cursor, level); }
    return Ok(()), k;
  }

  method SkipPpvids(cursor: Cursor, raw: bytes, ghost cache: Cache, ghost k0: seq<Kid>, ghost level: nat)
    returns (r: Result<()>, ghost k: seq<Kid>)
    requires |raw| == PORT_SIZE && cursor.pos <= |cursor.buf| && |k0| == 8
    requires level * CHAIN_LINK <= cursor.pos
    modifies cursor
    ensures |Fields(PortBody)| == 10
    ensures var run := Run(PortBody, 8, raw, cursor.buf, old(cursor.pos), cache, k0);
            && (r.Err? ==> r.error.Protocol? && run == Bad(r.error.reason, cursor.pos))
            && (r.Ok? ==>
                  && old(cursor.pos) <= cursor.pos <= |cursor.buf| && |k| == 9 && k[..8] == k0
                  && run == Run(PortBody, 9, raw, cursor.buf, cursor.pos, cache, k))
  {
    hide Walk, Run, Step, Slot, Wf, Fields, OptWalk;
    PortBodySchema();
    k := Advance(PortBody, 8, raw, cursor.buf, cursor.pos, cache, k0);
    OptIs(Ppvid, cursor.buf, cursor.pos, Slot(raw, P_PPVIDS_FIRST));
    if Slot(raw, P_PPVIDS_FIRST) != 0 { var _ :- DiscardPpvidChain(cursor, level); }
    return Ok(()), k;
  }

  method SkipPis(cursor: Cursor, raw: bytes, ghost cache: Cache, ghost k0: seq<Kid>, ghost level: nat)
    returns (r: Result<()>, ghost k: seq<Kid>)
    requires |raw| == PORT_SIZE && cursor.pos <= |cursor.buf| && |k0| == 9
    requires level * CHAIN_LINK <= cursor.pos
    modifies cursor
    ensures |Fields(PortBody)| == 10
    ensures var run := Run(PortBody, 9, raw, cursor.buf, old(cursor.pos), cache, k0);
            && (r.Err? ==> r.error.Protocol? && run == Bad(r.error.reason, cursor.pos))
            && (r.Ok? ==>
                  && cursor.pos <= |cursor.buf| && |k| == 10 && k[..9] == k0
                  && run == Run(PortBody, 10, raw, cursor.buf, cursor.pos, cache, k))
  {
    hide Walk, Run, Step, Slot, Wf, Fields, OptWalk;
    PortBodySchema();
    k := Advance(PortBody, 9, raw, cursor.buf, cursor.pos, cache, k0);
    OptIs(Pi, cursor.buf, cursor.pos, Slot(raw, P_PIDS_FIRST));
    if Slot(raw, P_PIDS_FIRST) != 0 { var _ :- DiscardPiChain(cursor, level); }
    return Ok(()), k;
  }

  /** The VLAN, PPVID and PI chains. */
  method SkipChains(cursor: Cursor, raw: bytes, ghost cache: Cache, ghost k0: seq<Kid>, ghost level: nat)
    returns (r: Result<()>, ghost k: seq<Kid>)
    requires |raw| == PORT_SIZE && cursor.pos <= |cursor.buf| && |k0| == 7
    requires level * CHAIN_LINK <= cursor.pos
    modifies cursor
    ensures var run := Run(PortBody, 7, raw, cursor.buf, old(cursor.pos), cache, k0);
            && cursor.pos == run.pos
            && (run.Bad? ==> r == Err(Protocol(run.reason)))
            && (run.Got? ==> run.value == Seen(k, cache) && |k| == 10 && k[..7] == k0 && r == Ok(()))
  {
    hide Run, Fields;
    PortBodySchema();
    var done;
    done, k :- SkipVlans(cursor, raw, cache, k0, level);
    done, k :- SkipPpvids(cursor, raw, cache, k, level);
    assert k[..7] == k[..8][..7] == k0;
    done, k :- SkipPis(cursor, raw, cache, k, level);
    assert k[..7] == k[..9][..7] == k0;
    RunEnd(PortBody, raw, cursor.buf, cursor.pos, cache, k);
    return Ok(()), k;
  }

  /** Fields 3 onward of a port: read to stay in step, and dropped. */
  method SkipUnsurfaced(cursor: Cursor, raw: bytes, ghost cache: Cache, ghost k0: seq<Kid>, ghost level: nat)
    returns (r: Result<()>, ghost k: seq<Kid>)
    requires |raw| == PORT_SIZE && cursor.pos <= |cursor.buf| && |k0| == 3
    requires level * CHAIN_LINK <= cursor.pos
    modifies cursor
    ensures var run := Run(PortBody, 3, raw, cursor.buf, old(cursor.pos), cache, k0);
            && cursor.pos == run.pos
            && (run.Bad? ==> r == Err(Protocol(run.reason)))
            && (run.Got? ==> run.value == Seen(k, cache) && |k| == 10 && k[..3] == k0 && r == Ok(()))
  {
    hide Walk, Run, Step, Slot, Wf, Fields, TextOf, BytesOf, OptWalk;
    PortBodySchema();
    k := Advance(PortBody, 3, raw, cursor.buf, cursor.pos, cache, k0);
    var _ :- ReadOptCString(cursor, Slot(raw, P_VLAN_PATTERN));
    var done;
    done, k :- SkipLocations(cursor, raw, cache, k);
    assert k[..3] == k[..4][..3] == k0;
    done, k :- SkipChains(cursor, raw, cache, k, level);
    assert k[..3] == k[..7][..3] == k0;
    return Ok(()), k;
  }

  // ---------------------------------------------------------- chassis by object

  /** Chassis objects by the sender's raw pointer value. */
  class ChassisCache {
    var entries: map<nat, ChassisArc>

    constructor ()
      ensures entries == map[]
    {
      entries := map[];
    }
  }

  /** The objects stand for the cached chassis, one object per id. */
  ghost predicate Mirrors(entries: map<nat, ChassisArc>, cache: Cache) {
    && CacheWf(cache)
    && entries.Keys == cache.Keys
    && (forall id | id in cache :: entries[id].chassis == ChassisOf(cache[id]))
    && (forall i, j | i in entries && j in entries && i != j :: entries[i] != entries[j])
  }

  /** No binding is lost or changed. */
  ghost predicate Keeps(before: map<nat, ChassisArc>, after: map<nat, ChassisArc>) {
    forall id | id in before :: id in after && after[id] == before[id]
  }

  /** The port fields with the chassis's object in place of its id. */
  ghost predicate BoundFields(v: PortFields<ChassisUse>, e: map<nat, ChassisArc>, r: PortFields<ChassisArc>) {
    && r.id == v.id
    && r.description == v.description
    && match v.chassis
       case None => r.chassis == None
       case Some(use) => use.id in e && r.chassis == Some(e[use.id])
  }

  /** The neighbor with the chassis's object in place of its id. */
  ghost predicate BoundNeighbor(v: Neighbor<ChassisUse>, e: map<nat, ChassisArc>, r: Neighbor<ChassisArc>) {
    && v.chassis.id in e
    && r == Neighbor(e[v.chassis.id], v.portIdSubtype, v.portId, v.portDescription, v.ttl)
  }

  ghost predicate BoundNeighbors(vs: seq<Neighbor<ChassisUse>>, e: map<nat, ChassisArc>,
    rs: seq<Neighbor<ChassisArc>>) {
    |rs| == |vs| && forall i | 0 <= i < |vs| :: BoundNeighbor(vs[i], e, rs[i])
  }

  /** The object held for a raw pointer value: none for zero. */
  ghost predicate BoundChassis(id: nat, e: map<nat, ChassisArc>, r: Option<ChassisArc>) {
    if id == 0 then r == None else id in e && r == Some(e[id])
  }

  lemma MirrorsKeys(entries: map<nat, ChassisArc>, cache: Cache)
    requires Mirrors(entries, cache)
    ensures entries.Keys == cache.Keys && CacheWf(cache)
  {
  }

  lemma MirrorsBind(entries: map<nat, ChassisArc>, cache: Cache, id: nat, arc: ChassisArc, t: Tree)
    requires Mirrors(entries, cache) && id !in entries && Wf(ChassisBox, t) && arc.chassis == ChassisOf(t)
    requires forall j | j in entries :: entries[j] != arc
    ensures Mirrors(entries[id := arc], cache[id := t])
  {
    hide Wf, ChassisOf;
  }

  /** The three ways a shared field is read. */
  lemma SharedFound(raw: bytes, buf: bytes, pos: nat, seen: Cache)
    requires |raw| == PORT_SIZE && pos <= |buf|
    ensures var id := Slot(raw, P_CHASSIS);
            var s := Step(PortBody, Shared(P_CHASSIS), raw, buf, pos, seen);
            var w := Walk(ChassisBox, buf, pos, map[]);
            && (id == 0 ==> s == Got(Seen(Absent, seen), pos))
            && (id != 0 && id in seen ==> s == Got(Seen(Child(seen[id]), seen), pos))
            && (id != 0 && id !in seen && w.Bad? ==>
                  s == Bad(w.reason, w.pos) && ChassisAt(buf, pos) == Err(Protocol(w.reason)))
            && (id != 0 && id !in seen && w.Got? ==>
                  && s == Got(Seen(Child(w.value.item), seen[id := w.value.item]), w.pos)
                  && Wf(ChassisBox, w.value.item) && ChassisAt(buf, pos) == Ok(ChassisOf(w.value.item)))
  {
    hide Walk, Slot, Wf, ChassisOf;
    ClosedWalk(ChassisBox, buf, pos, seen);
    WalkWf(ChassisBox, buf, pos, map[]);
  }

  /** The chassis of a port: a cached object, or a fresh one for the chunk that follows. */
  method ResolveChassis(cursor: Cursor, raw: bytes, cache: ChassisCache, ghost seen: Cache, ghost level: nat)
    returns (r: Result<Option<ChassisArc>>)
    requires |raw| == PORT_SIZE && cursor.pos <= |cursor.buf| && Mirrors(cache.entries, seen)
    requires level * CHAIN_LINK <= cursor.pos
    modifies cursor, cache
    ensures var s := Step(PortBody, Shared(P_CHASSIS), raw, cursor.buf, old(cursor.pos), seen);
            && cursor.pos == s.pos
            && (s.Bad? ==> r == Err(Protocol(s.reason)))
            && (s.Got? ==>
                  && Mirrors(cache.entries, s.value.cache)
                  && r.Ok? && BoundChassis(Slot(raw, P_CHASSIS), cache.entries, r.value))
    ensures Keeps(old(cache.entries), cache.entries)
    ensures forall id | id in cache.entries && id !in old(cache.entries) :: fresh(cache.entries[id])
  {
    hide Walk, Slot, Wf, ChassisOf, ChassisAt, Step, Mirrors;
    var id := Slot(raw, P_CHASSIS);
    SharedFound(raw, cursor.buf, cursor.pos, seen);
    MirrorsKeys(cache.entries, seen);
    if id == 0 { return Ok(None); }
    if id in cache.entries { return Ok(Some(cache.entries[id])); }
    ghost var w := Walk(ChassisBox, cursor.buf, cursor.pos, map[]);
    var decoded :- DecodeChassis(cursor, level);
    var arc := new ChassisArc(decoded);
    MirrorsBind(cache.entries, seen, id, arc, w.value.item);
    cache.entries := cache.entries[id := arc];
    return Ok(Some(arc));
  }

  // -------------------------------------------------------------------- ports

  /** What the three surfaced fields of a port body become. */
  lemma PortFieldsFound(raw: bytes, k: seq<Kid>)
    requires |raw| == PORT_SIZE && KidsWf(PortBody, raw, k)
    ensures var v := PortFieldsOf(raw, k);
            && v.id == BytesOf(k[1]) && v.description == TextOf(k[2])
            && (Slot(raw, P_CHASSIS) == 0 <==> v.chassis == None)
            && (v.chassis.Some? ==> v.chassis.value.id == Slot(raw, P_CHASSIS))
  {
    hide Slot, ChassisOf, BytesOf, TextOf;
    assert KidWf(PortBody, Fields(PortBody)[0], raw, k[0]);
  }

  lemma FirstStep(raw: bytes, buf: bytes, pos: nat, seen: Cache)
    requires |raw| == PORT_SIZE && pos <= |buf|
    ensures var s := Step(PortBody, Shared(P_CHASSIS), raw, buf, pos, seen);
            Run(PortBody, 0, raw, buf, pos, seen, [])
            == if s.Bad? then Bad(s.reason, s.pos) else Run(PortBody, 1, raw, buf, s.pos, s.value.cache, [s.value.item])
  {
    hide Step, Slot, Fields;
    PortBodySchema();
    var s := Step(PortBody, Shared(P_CHASSIS), raw, buf, pos, seen);
    if s.Got? { assert [] + [s.value.item] == [s.value.item]; }
  }

  method DecodePortFields(cursor: Cursor, raw: bytes, cache: ChassisCache, ghost seen: Cache, ghost level: nat)
    returns (r: Result<PortFields<ChassisArc>>)
    requires |raw| == PORT_SIZE && cursor.pos <= |cursor.buf| && Mirrors(cache.entries, seen)
    requires level * CHAIN_LINK <= cursor.pos
    modifies cursor, cache
    ensures var run := Run(PortBody, 0, raw, cursor.buf, old(cursor.pos), seen, []);
            && cursor.pos == run.pos
            && (run.Bad? ==> r == Err(Protocol(run.reason)))
            && (run.Got? ==>
                  && Mirrors(cache.entries, run.value.cache)
                  && KidsWf(PortBody, raw, run.value.item)
                  && r.Ok? && BoundFields(PortFieldsOf(raw, run.value.item), cache.entries, r.value))
    ensures Keeps(old(cache.entries), cache.entries)
    ensures forall id | id in cache.entries && id !in old(cache.entries) :: fresh(cache.entries[id])
  {
    hide Walk, Run, Step, Slot, Wf, KidsWf, KidWf, Fields, TextOf, BytesOf, OptWalk, Mirrors, PortFieldsOf;
    PortBodySchema();
    PortWf(raw, cursor.buf, cursor.pos, cache.entries, seen);
    FirstStep(raw, cursor.buf, cursor.pos, seen);
    ghost var first := Step(PortBody, Shared(P_CHASSIS), raw, cursor.buf, cursor.pos, seen);
    var chassis :- ResolveChassis(cursor, raw, cache, seen, level);
    ghost var now := first.value.cache;
    ghost var k := [first.value.item];
    k := Advance(PortBody, 1, raw, cursor.buf, cursor.pos, now, k);
    var id :- ReadOptBytes(cursor, Slot(raw, P_ID));
    k := Advance(PortBody, 2, raw, cursor.buf, cursor.pos, now, k);
    var description :- ReadOptCString(cursor, Slot(raw, P_DESCR));
    ghost var k3 := k;
    var done;
    done, k :- SkipUnsurfaced(cursor, raw, now, k, level);
    assert k[1] == k[..3][1] == k3[1] && k[2] == k[..3][2] == k3[2];
    PortFieldsFound(raw, k);
    return Ok(PortFields(chassis, id, description));
  }

  lemma PortWf(raw: bytes, buf: bytes, pos: nat, entries: map<nat, ChassisArc>, seen: Cache)
    requires |raw| == PORT_SIZE && pos <= |buf| && Mirrors(entries, seen)
    ensures var run := Run(PortBody, 0, raw, buf, pos, seen, []);
            run.Got? ==> KidsWf(PortBody, raw, run.value.item)
  {
    hide KidsWf, Run, Step;
    RunWf(PortBody, 0, raw, buf, pos, seen, []);
  }

  /** Finishes a port whose struct has been read; a neighbor must have a chassis. */
  method BuildNeighbor(cursor: Cursor, raw: bytes, cache: ChassisCache, ghost seen: Cache, ghost level: nat)
    returns (r: Result<Neighbor<ChassisArc>>)
    requires |raw| == PORT_SIZE && cursor.pos <= |cursor.buf| && Mirrors(cache.entries, seen)
    requires level * CHAIN_LINK <= cursor.pos
    modifies cursor, cache
    ensures var run := Run(PortBody, 0, raw, cursor.buf, old(cursor.pos), seen, []);
            && cursor.pos == run.pos
            && (run.Bad? ==> r == Err(Protocol(run.reason)))
            && (run.Got? && Slot(raw, P_CHASSIS) == 0 ==> r == Err(Protocol(NoChassis)))
            && (run.Got? && Slot(raw, P_CHASSIS) != 0 ==>
                  && Mirrors(cache.entries, run.value.cache)
                  && KidsWf(PortBody, raw, run.value.item)
                  && r.Ok? && BoundNeighbor(NeighborView(raw, run.value.item), cache.entries, r.value))
    ensures Keeps(old(cache.entries), cache.entries)
    ensures forall id | id in cache.entries && id !in old(cache.entries) :: fresh(cache.entries[id])
  {
    hide Run, Slot, KidsWf, KidWf, Fields, Mirrors, PortFieldsOf, Le;
    ghost var run := Run(PortBody, 0, raw, cursor.buf, cursor.pos, seen, []);
    var fields :- DecodePortFields(cursor, raw, cache, seen, level);
    PortFieldsFound(raw, run.value.item);
    match fields.chassis
    case None => return Err(Protocol(NoChassis));
    case Some(chassis) =>
      return Ok(Neighbor(chassis, raw[P_ID_SUBTYPE], GetOrEmpty(fields.id), fields.description, Le(raw[P_TTL..P_TTL + 2])));
  }

  /** Fields 1 and 2 of a port with a chassis: the shared body, then the demand for a chassis. */
  lemma BodyFound(ty: Ty, raw: bytes, buf: bytes, pos: nat, cache: Cache, first: Kid)
    requires ty.NeighborPort? || ty.NotifiedPort?
    requires |raw| == PORT_SIZE && pos <= |buf|
    ensures var run := Run(PortBody, 0, raw, buf, pos, cache, []);
            Run(ty, 1, raw, buf, pos, cache, [first])
            == if run.Bad? then Bad(run.reason, run.pos)
               else if Slot(raw, P_CHASSIS) == 0 then Bad(NoChassis, run.pos)
               else Got(Seen([first, Group(run.value.item), Absent], run.value.cache), run.pos)
  {
    hide Slot, Fields;
    PortSchema();
    var run := Run(PortBody, 0, raw, buf, pos, cache, []);
    assert Step(ty, Fields(ty)[1], raw, buf, pos, cache)
        == if run.Bad? then Bad(run.reason, run.pos) else Got(Seen(Group(run.value.item), run.value.cache), run.pos);
    if run.Got? {
      var c := run.value.cache;
      var two := [first] + [Group(run.value.item)];
      assert Run(ty, 1, raw, buf, pos, cache, [first]) == Run(ty, 2, raw, buf, run.pos, c, two);
      if Slot(raw, P_CHASSIS) != 0 {
        assert Step(ty, Fields(ty)[2], raw, buf, run.pos, c) == Got(Seen(Absent, c), run.pos);
        assert two + [Absent] == [first, Group(run.value.item), Absent];
        RunEnd(ty, raw, buf, run.pos, c, two + [Absent]);
      } else {
        assert Step(ty, Fields(ty)[2], raw, buf, run.pos, c) == Bad(NoChassis, run.pos);
      }
    }
  }

  /** A chained port: its struct, the rest of the chain, then its own body. */
  lemma ChainFound(buf: bytes, pos: nat, seen: Cache)
    requires pos <= |buf|
    ensures var p := ReadPod(buf, pos, PORT_SIZE);
            var w := Walk(NeighborPort, buf, pos, seen);
            && (p.Bad? ==> w == Bad(p.reason, p.pos))
            && (p.Got? ==>
                  var raw := p.value.1;
                  var rest := Walk(NeighborPort, buf, p.pos, seen);
                  if Slot(raw, TQE_NEXT) != 0 && rest.Bad? then w == Bad(rest.reason, rest.pos)
                  else
                    var q := if Slot(raw, TQE_NEXT) == 0 then p.pos else rest.pos;
                    var c := if Slot(raw, TQE_NEXT) == 0 then seen else rest.value.cache;
                    var next := if Slot(raw, TQE_NEXT) == 0 then Absent else Child(rest.value.item);
                    var run := Run(PortBody, 0, raw, buf, q, c, []);
                    if run.Bad? then w == Bad(run.reason, run.pos)
                    else if Slot(raw, P_CHASSIS) == 0 then w == Bad(NoChassis, run.pos)
                    else w == Got(Seen(Node(p.value.0, raw, [next, Group(run.value.item), Absent]), run.value.cache), run.pos))
  {
    hide Slot, Fields, ReadPod;
    PortSchema();
    PodFound(NeighborPort, buf, pos, seen);
    var p := ReadPod(buf, pos, PORT_SIZE);
    if p.Got? {
      var raw := p.value.1;
      var s := Step(NeighborPort, Fields(NeighborPort)[0], raw, buf, p.pos, seen);
      assert Run(NeighborPort, 0, raw, buf, p.pos, seen, [])
          == if s.Bad? then Bad(s.reason, s.pos) else Run(NeighborPort, 1, raw, buf, s.pos, s.value.cache, [] + [s.value.item]);
      if s.Got? {
        assert [] + [s.value.item] == [s.value.item];
        BodyFound(NeighborPort, raw, buf, s.pos, s.value.cache, s.value.item);
      }
    }
  }

  lemma BoundNone(e: map<nat, ChassisArc>)
    ensures BoundNeighbors([], e, [])
  {
  }

  lemma BoundCons(v: Neighbor<ChassisUse>, vs: seq<Neighbor<ChassisUse>>, e: map<nat, ChassisArc>,
                  r: Neighbor<ChassisArc>, rs: seq<Neighbor<ChassisArc>>)
    requires BoundNeighbor(v, e, r) && BoundNeighbors(vs, e, rs)
    ensures BoundNeighbors([v] + vs, e, [r] + rs)
  {
    hide BoundNeighbor;
  }

  lemma BoundGrows(vs: seq<Neighbor<ChassisUse>>, before: map<nat, ChassisArc>, after: map<nat, ChassisArc>,
                   rs: seq<Neighbor<ChassisArc>>)
    requires BoundNeighbors(vs, before, rs) && Keeps(before, after)
    ensures BoundNeighbors(vs, after, rs)
  {
    forall i | 0 <= i < |vs| ensures BoundNeighbor(vs[i], after, rs[i]) {
      assert BoundNeighbor(vs[i], before, rs[i]);
    }
  }

  /** A chained port's neighbors: its own, then the rest's. */
  lemma NeighborsFound(orig: nat, raw: bytes, next: Kid, kids: seq<Kid>, check: Kid)
    requires Wf(NeighborPort, Node(orig, raw, [next, Group(kids), check]))
    ensures |raw| == PORT_SIZE && KidsWf(PortBody, raw, kids) && Slot(raw, P_CHASSIS) != 0
    ensures (next.Child? <==> Slot(raw, TQE_NEXT) != 0) && (next.Child? ==> Wf(NeighborPort, next.tree))
    ensures NeighborsOf(Node(orig, raw, [next, Group(kids), check]))
         == [NeighborView(raw, kids)] + if next.Child? then NeighborsOf(next.tree) else []
  {
    hide NeighborView, Slot, KidsWf;
    var t := Node(orig, raw, [next, Group(kids), check]);
    PortSchema();
    KidAt(NeighborPort, t, 0);
    KidAt(NeighborPort, t, 1);
    KidAt(NeighborPort, t, 2);
  }

  method DecodeNeighborChain(cursor: Cursor, cache: ChassisCache, ghost seen: Cache, ghost level: nat)
    returns (r: Result<seq<Neighbor<ChassisArc>>>)
    requires cursor.pos <= |cursor.buf| && Mirrors(cache.entries, seen)
    requires level * CHAIN_LINK <= cursor.pos
    modifies cursor, cache
    ensures var w := Walk(NeighborPort, cursor.buf, old(cursor.pos), seen);
            && cursor.pos == w.pos
            && (w.Bad? ==> r == Err(Protocol(w.reason)))
            && (w.Got? ==>
                  && Mirrors(cache.entries, w.value.cache)
                  && Wf(NeighborPort, w.value.item)
                  && r.Ok? && BoundNeighbors(NeighborsOf(w.value.item), cache.entries, r.value))
    ensures Keeps(old(cache.entries), cache.entries)
    ensures forall id | id in cache.entries && id !in old(cache.entries) :: fresh(cache.entries[id])
    decreases |cursor.buf| - cursor.pos
  {
    hide Walk, Run, ReadPod, Slot, Wf, KidsWf, Fields, Mirrors, NeighborsOf, NeighborView, BoundNeighbor, BoundNeighbors;
    MirrorsKeys(cache.entries, seen);
    WalkWf(NeighborPort, cursor.buf, cursor.pos, seen);
    ChainFound(cursor.buf, cursor.pos, seen);
    ghost var pod := ReadPod(cursor.buf, cursor.pos, PORT_SIZE);
    var raw :- ReadChunkPod(cursor, NeighborPort);
    ghost var next, now := Absent, seen;
    var rest := [];
    if Slot(raw, TQE_NEXT) != 0 {
      ghost var w := Walk(NeighborPort, cursor.buf, cursor.pos, seen);
      rest :- DecodeNeighborChain(cursor, cache, seen, level + 1);
      next, now := Child(w.value.item), w.value.cache;
    }
    ghost var before := cache.entries;
    ghost var run := Run(PortBody, 0, raw, cursor.buf, cursor.pos, now, []);
    var neighbor :- BuildNeighbor(cursor, raw, cache, now, level + 1);
    NeighborsFound(pod.value.0, raw, next, run.value.item, Absent);
    BoundNone(before);
    ghost var others := if next.Child? then NeighborsOf(next.tree) else [];
    BoundGrows(others, before, cache.entries, rest);
    BoundCons(NeighborView(raw, run.value.item), others, cache.entries, neighbor, rest);
    var out := [neighbor];
    return Ok(out + rest);
  }

  // ----------------------------------------------------------------- top level

  method DecodeInterfaces(payload: Payload) returns (r: Result<seq<Interface>>)
    ensures r == InterfacesIn(payload)
  {
    hide Walk, Run, Step, ReadPod, Slot, KidWf, Wf, InterfacesOf;
    var cursor := new Cursor(payload);
    PodFound(IfaceList, payload, 0, map[]);
    WalkWf(IfaceList, payload, 0, map[]);
    var list :- ReadChunkPod(cursor, IfaceList);
    ghost var k := Advance(IfaceList, 0, list, payload, cursor.pos, map[], []);
    if Slot(list, TQH_FIRST) == 0 {
      RunEnd(IfaceList, list, payload, cursor.pos, map[], k);
      return Ok([]);
    }
    r := DecodeInterfaceChain(cursor, 0);
    if r.Ok? { RunEnd(IfaceList, list, payload, cursor.pos, map[], k); }
  }

  /** The embedded local port: its marker, the demand that it is not chained, its body. */
  lemma LocalPortFound(l: Layout, raw: bytes, buf: bytes, pos: nat, cache: Cache)
    requires |raw| == Size(Hardware(l)) && pos <= |buf|
    ensures var h := ReadHeader(buf, pos);
            var s := Step(Hardware(l), Sub(LocalPortOffset(l), LocalPort), raw, buf, pos, cache);
            && (h.Bad? ==> s == Bad(h.reason, h.pos))
            && (h.Got? ==>
                  var lport := Inner(raw, LocalPortOffset(l), LocalPort);
                  var run := Run(PortBody, 0, lport, buf, h.pos, cache, []);
                  if Slot(lport, TQE_NEXT) != 0 then s == Bad(LocalPortChained, h.pos)
                  else if run.Bad? then s == Bad(run.reason, run.pos)
                  else s == Got(Seen(Marked(h.value.0, [Absent, Group(run.value.item)]), run.value.cache), run.pos))
  {
    hide Slot, Fields, Inner, ReadHeader;
    PortSchema();
    var h := ReadHeader(buf, pos);
    if h.Got? {
      var lport := Inner(raw, LocalPortOffset(l), LocalPort);
      if Slot(lport, TQE_NEXT) == 0 {
        var run := Run(PortBody, 0, lport, buf, h.pos, cache, []);
        assert [] + [Absent] == [Absent];
        assert Run(LocalPort, 0, lport, buf, h.pos, cache, []) == Run(LocalPort, 1, lport, buf, h.pos, cache, [Absent]);
        assert Step(LocalPort, Fields(LocalPort)[1], lport, buf, h.pos, cache)
            == if run.Bad? then Bad(run.reason, run.pos) else Got(Seen(Group(run.value.item), run.value.cache), run.pos);
        if run.Got? {
          assert [Absent] + [Group(run.value.item)] == [Absent, Group(run.value.item)];
          RunEnd(LocalPort, lport, buf, run.pos, run.value.cache, [Absent, Group(run.value.item)]);
        }
      } else {
        assert Step(LocalPort, Fields(LocalPort)[0], lport, buf, h.pos, cache) == Bad(LocalPortChained, h.pos);
      }
    }
  }

  /** What follows the local port: the neighbor chain and the alias. */
  lemma TailFound(l: Layout, raw: bytes, buf: bytes, pos: nat, cache: Cache, local: Kid)
    requires |raw| == Size(Hardware(l)) && pos <= |buf|
    ensures var head := Slot(raw, NeighborsOffset(l));
            var w := Walk(NeighborPort, buf, pos, cache);
            var run := Run(Hardware(l), 1, raw, buf, pos, cache, [local]);
            if head != 0 && w.Bad? then run == Bad(w.reason, w.pos)
            else
              var q := if head == 0 then pos else w.pos;
              var c := if head == 0 then cache else w.value.cache;
              var chain := if head == 0 then Absent else Child(w.value.item);
              var alias := OptWalk(CString, buf, q, Slot(raw, AliasOffset(l)));
              if alias.Bad? then run == Bad(alias.reason, alias.pos)
              else run == Got(Seen([local, chain, alias.value], c), alias.pos)
  {
    hide Slot, Fields, OptWalk, Walk;
    HardwareSchema(l);
    var s := Step(Hardware(l), Fields(Hardware(l))[1], raw, buf, pos, cache);
    if s.Got? {
      assert [local] + [s.value.item] == [local, s.value.item];
      var k := Advance(Hardware(l), 2, raw, buf, s.pos, s.value.cache, [local, s.value.item]);
      var alias := OptWalk(CString, buf, s.pos, Slot(raw, AliasOffset(l)));
      if alias.Got? {
        assert k == [local, s.value.item, alias.value];
        RunEnd(Hardware(l), raw, buf, alias.pos, s.value.cache, k);
      }
    }
  }

  /** Field 0 leads on to the rest. */
  lemma HardwareStart(l: Layout, raw: bytes, buf: bytes, pos: nat, cache: Cache)
    requires |raw| == Size(Hardware(l)) && pos <= |buf|
    ensures var s := Step(Hardware(l), Sub(LocalPortOffset(l), LocalPort), raw, buf, pos, cache);
            Run(Hardware(l), 0, raw, buf, pos, cache, [])
            == if s.Bad? then Bad(s.reason, s.pos) else Run(Hardware(l), 1, raw, buf, s.pos, s.value.cache, [s.value.item])
  {
    hide Step, Fields;
    HardwareSchema(l);
    var s := Step(Hardware(l), Sub(LocalPortOffset(l), LocalPort), raw, buf, pos, cache);
    if s.Got? { assert [] + [s.value.item] == [s.value.item]; }
  }

  /** The details with chassis objects in place of ids. */
  ghost predicate BoundDetails(v: InterfaceDetails<ChassisUse>, e: map<nat, ChassisArc>,
    r: InterfaceDetails<ChassisArc>) {
    && r.name == v.name && r.alias == v.alias && r.macAddress == v.macAddress
    && (match v.localChassis
        case None => r.localChassis == None
        case Some(use) => use.id in e && r.localChassis == Some(e[use.id]))
    && BoundNeighbors(v.neighbors, e, r.neighbors)
  }

  /**
   Two ports hold the same chassis object exactly when their raw ids are equal,
   and every object says what the wire said at that id.
   */
  ghost predicate SharesExactly(v: InterfaceDetails<ChassisUse>, r: InterfaceDetails<ChassisArc>) {
    && |r.neighbors| == |v.neighbors|
    && (r.localChassis.Some? <==> v.localChassis.Some?)
    && (forall i, j | 0 <= i < |v.neighbors| && 0 <= j < |v.neighbors| ::
          r.neighbors[i].chassis == r.neighbors[j].chassis <==> v.neighbors[i].chassis.id == v.neighbors[j].chassis.id)
    && (forall i | 0 <= i < |v.neighbors| :: r.neighbors[i].chassis.chassis == v.neighbors[i].chassis.chassis)
    && (v.localChassis.Some? ==>
          && r.localChassis.value.chassis == v.localChassis.value.chassis
          && forall i | 0 <= i < |v.neighbors| ::
               r.neighbors[i].chassis == r.localChassis.value <==> v.neighbors[i].chassis.id == v.localChassis.value.id)
  }

  lemma ObjectsAreExact(v: InterfaceDetails<ChassisUse>, e: map<nat, ChassisArc>,
                        r: InterfaceDetails<ChassisArc>, cache: Cache)
    requires BoundDetails(v, e, r) && Mirrors(e, cache) && AllFaithful(v, cache)
    ensures SharesExactly(v, r)
  {
    hide ChassisOf, Wf;
    forall i | 0 <= i < |v.neighbors|
      ensures v.neighbors[i].chassis.id in e && r.neighbors[i].chassis == e[v.neighbors[i].chassis.id]
      ensures r.neighbors[i].chassis.chassis == v.neighbors[i].chassis.chassis
    {
      assert BoundNeighbor(v.neighbors[i], e, r.neighbors[i]);
      assert v.neighbors[i] in v.neighbors;
    }
  }

  lemma DetailsFound(l: Layout, orig: nat, raw: bytes, mark: nat, first: Kid, kids: seq<Kid>, chain: Kid, alias: Kid)
    requires Wf(Hardware(l), Node(orig, raw, [Marked(mark, [first, Group(kids)]), chain, alias]))
    ensures |raw| == Size(Hardware(l))
    ensures var lport := Inner(raw, LocalPortOffset(l), LocalPort);
            KidsWf(PortBody, lport, kids)
    ensures chain.Child? ==> Wf(NeighborPort, chain.tree)
    ensures HardwareOf(l, Node(orig, raw, [Marked(mark, [first, Group(kids)]), chain, alias]))
         == InterfaceDetails(
              UntilNul(raw[NameOffset(l)..NameOffset(l) + IFNAMSIZ]), TextOf(alias),
              raw[MacOffset(l)..MacOffset(l) + ETHER_ADDR_LEN],
              PortFieldsOf(Inner(raw, LocalPortOffset(l), LocalPort), kids).chassis,
              if chain.Child? then NeighborsOf(chain.tree) else [])
  {
    hide Slot, PortFieldsOf, UntilNul, TextOf, NeighborsOf, Fields;
    HardwareSchema(l);
    PortSchema();
    var t := Node(orig, raw, [Marked(mark, [first, Group(kids)]), chain, alias]);
    KidAt(Hardware(l), t, 0);
    KidAt(Hardware(l), t, 1);
    assert KidWf(LocalPort, Fields(LocalPort)[1], Inner(raw, LocalPortOffset(l), LocalPort), Group(kids));
  }

  /** The position of the first NUL of a name field, or its length. */
  method NameLength(field: bytes) returns (n: nat)
    ensures n == |UntilNul(field)| && n <= |field|
  {
    n := 0;
    while n < |field| && field[n] != 0
      invariant n <= |field| && |UntilNul(field)| == n + |UntilNul(field[n..])|
    {
      assert field[n..][1..] == field[n + 1..];
      n := n + 1;
    }
  }

  /** After the struct: local port, neighbors, alias. */
  method ReadHardwareFields(cursor: Cursor, l: Layout, raw: bytes, cache: ChassisCache, ghost orig: nat)
    returns (r: Result<InterfaceDetails<ChassisArc>>)
    requires |raw| == Size(Hardware(l)) && cursor.pos <= |cursor.buf| && cache.entries == map[]
    requires orig < WORD_LIMIT
    modifies cursor, cache
    ensures var run := Run(Hardware(l), 0, raw, cursor.buf, old(cursor.pos), map[], []);
            && cursor.pos == run.pos
            && (run.Bad? ==> r == Err(Protocol(run.reason)))
            && (run.Got? ==>
                  && Mirrors(cache.entries, run.value.cache)
                  && Wf(Hardware(l), Node(orig, raw, run.value.item))
                  && r.Ok? && BoundDetails(HardwareOf(l, Node(orig, raw, run.value.item)), cache.entries, r.value))
  {
    hide Walk, Run, Step, Slot, Wf, KidsWf, KidWf, Fields, NeighborsOf, PortFieldsOf, Inner, UntilNul,
      HardwareOf, TextOf, OptWalk, ReadHeader, BoundNeighbor, Mirrors;
    ghost var buf := cursor.buf;
    HardwareWf(l, raw, buf, cursor.pos, orig);
    MirrorsEmpty();
    HardwareStart(l, raw, buf, cursor.pos, map[]);
    LocalPortFound(l, raw, buf, cursor.pos, map[]);
    ghost var mark := ReadHeader(buf, cursor.pos);
    var _ :- ConsumeSubstructMarker(cursor);
    var lport := Inner(raw, LocalPortOffset(l), LocalPort);
    if Slot(lport, TQE_NEXT) != 0 { return Err(Protocol(LocalPortChained)); }
    ghost var body := Run(PortBody, 0, lport, buf, cursor.pos, map[], []);
    var local :- DecodePortFields(cursor, lport, cache, map[], 0);
    ghost var first := Marked(mark.value.0, [Absent, Group(body.value.item)]);
    TailFound(l, raw, buf, cursor.pos, body.value.cache, first);
    ghost var before := cache.entries;
    ghost var chain := Absent;
    var neighbors := [];
    if Slot(raw, NeighborsOffset(l)) != 0 {
      ghost var w := Walk(NeighborPort, buf, cursor.pos, body.value.cache);
      neighbors :- DecodeNeighborChain(cursor, cache, body.value.cache, 0);
      chain := Child(w.value.item);
    }
    ghost var last := OptWalk(CString, buf, cursor.pos, Slot(raw, AliasOffset(l)));
    var alias :- ReadOptCString(cursor, Slot(raw, AliasOffset(l)));
    DetailsFound(l, orig, raw, mark.value.0, Absent, body.value.item, chain, last.value);
    var field := raw[NameOffset(l)..NameOffset(l) + IFNAMSIZ];
    var nameLen := NameLength(field);
    assert field[..nameLen] == UntilNul(field);
    return Ok(InterfaceDetails(field[..nameLen], alias, raw[MacOffset(l)..MacOffset(l) + ETHER_ADDR_LEN], local.chassis, neighbors));
  }

  lemma HardwareWf(l: Layout, raw: bytes, buf: bytes, pos: nat, orig: nat)
    requires |raw| == Size(Hardware(l)) && pos <= |buf| && orig < WORD_LIMIT
    ensures var run := Run(Hardware(l), 0, raw, buf, pos, map[], []);
            run.Got? ==> Wf(Hardware(l), Node(orig, raw, run.value.item))
  {
    hide Run, KidsWf;
    RunWf(Hardware(l), 0, raw, buf, pos, map[], []);
  }

  lemma SameSize(entries: map<nat, ChassisArc>, cache: Cache)
    requires entries.Keys == cache.Keys
    ensures |entries| == |cache|
  {
    assert |entries.Keys| == |entries| && |cache.Keys| == |cache|;
  }

  lemma MirrorsEmpty()
    ensures Mirrors(map[], map[])
  {
  }

  /**
   One layout attempt. `e` is the table of chassis objects behind the result: one
   for each chassis chunk read, and one for each distinct id.
   */
  method DecodeHardwareAs(l: Layout, payload: Payload)
    returns (r: Result<InterfaceDetails<ChassisArc>>, ghost e: map<nat, ChassisArc>)
    ensures r.Ok? <==> HardwareAs(l, payload).Ok?
    ensures r.Err? ==> r.error == HardwareAs(l, payload).error
    ensures r.Ok? ==> BoundDetails(HardwareAs(l, payload).value, e, r.value)
    ensures r.Ok? ==> SharesExactly(HardwareAs(l, payload).value, r.value)
    ensures r.Ok? ==> e.Keys == DetailIds(HardwareAs(l, payload).value)
    ensures r.Ok? ==> |e| == WalkChunks(Hardware(l), payload, 0, map[])
  {
    hide Walk, Run, ReadPod, Wf, HardwareOf, BoundDetails, Mirrors, SharesExactly, DetailIds, AllFaithful, WalkChunks;
    e := map[];
    var cursor := new Cursor(payload);
    PodFound(Hardware(l), payload, 0, map[]);
    WalkWf(Hardware(l), payload, 0, map[]);
    ghost var pod := ReadPod(payload, 0, Size(Hardware(l)));
    var raw :- ReadChunkPod(cursor, Hardware(l));
    var cache := new ChassisCache();
    var details :- ReadHardwareFields(cursor, l, raw, cache, pod.value.0);
    if !cursor.IsExhausted() { return Err(Protocol(LayoutMismatch)), e; }
    CacheIsExact(l, payload);
    ghost var found := Walk(Hardware(l), payload, 0, map[]).value.cache;
    MirrorsKeys(cache.entries, found);
    SameSize(cache.entries, found);
    ChunksAreBindings(Hardware(l), payload, 0, map[]);
    ObjectsAreExact(HardwareAs(l, payload).value, cache.entries, details, found);
    return Ok(details), cache.entries;
  }

  /** The chassis chunks read by the attempt whose result is returned. */
  function ChassisChunks(payload: bytes): nat {
    WalkChunks(Hardware(if HardwareAs(Legacy, payload).Ok? then Legacy else FlagsPrevious), payload, 0, map[])
  }

  /** The long-stable layout first, the newer one second; the first error if neither fits. */
  method DecodeHardware(payload: Payload)
    returns (r: Result<InterfaceDetails<ChassisArc>>, ghost e: map<nat, ChassisArc>)
    ensures r.Ok? <==> HardwareIn(payload).Ok?
    ensures r.Err? ==> r.error == HardwareIn(payload).error
    ensures r.Ok? ==> BoundDetails(HardwareIn(payload).value, e, r.value)
    ensures r.Ok? ==> SharesExactly(HardwareIn(payload).value, r.value)
    ensures r.Ok? ==> e.Keys == DetailIds(HardwareIn(payload).value)
    ensures r.Ok? ==> |e| == ChassisChunks(payload)
    // In the layouts' own terms: the first that fits, and the first one's error when none does.
    ensures HardwareAs(Legacy, payload).Ok? ==> r.Ok? && BoundDetails(HardwareAs(Legacy, payload).value, e, r.value)
    ensures HardwareAs(Legacy, payload).Err? && HardwareAs(FlagsPrevious, payload).Ok? ==>
              r.Ok? && BoundDetails(HardwareAs(FlagsPrevious, payload).value, e, r.value)
    ensures HardwareAs(Legacy, payload).Err? && HardwareAs(FlagsPrevious, payload).Err? ==>
              r == Err(HardwareAs(Legacy, payload).error)
  {
    hide HardwareAs, BoundDetails, Mirrors, Walk, SharesExactly, DetailIds, WalkChunks;
    r, e := DecodeHardwareAs(Legacy, payload);
    if r.Err? {
      var legacyError := r.error;
      r, e := DecodeHardwareAs(FlagsPrevious, payload);
      if r.Err? { r := Err(legacyError); }
    }
  }

  // --------------------------------------------------------------- notifications

  /** A notified port: its struct, the demand that it is not chained, its body. */
  lemma NotifiedFound(buf: bytes, pos: nat, seen: Cache)
    requires pos <= |buf|
    ensures var p := ReadPod(buf, pos, PORT_SIZE);
            var w := Walk(NotifiedPort, buf, pos, seen);
            && (p.Bad? ==> w == Bad(p.reason, p.pos))
            && (p.Got? ==>
                  var raw := p.value.1;
                  var run := Run(PortBody, 0, raw, buf, p.pos, seen, []);
                  if Slot(raw, TQE_NEXT) != 0 then w == Bad(NotifiedPortChained, p.pos)
                  else if run.Bad? then w == Bad(run.reason, run.pos)
                  else if Slot(raw, P_CHASSIS) == 0 then w == Bad(NoChassis, run.pos)
                  else w == Got(Seen(Node(p.value.0, raw, [Absent, Group(run.value.item), Absent]), run.value.cache), run.pos))
  {
    hide Slot, Fields, ReadPod;
    PortSchema();
    PodFound(NotifiedPort, buf, pos, seen);
    var p := ReadPod(buf, pos, PORT_SIZE);
    if p.Got? {
      var raw := p.value.1;
      var s := Step(NotifiedPort, Fields(NotifiedPort)[0], raw, buf, p.pos, seen);
      assert Run(NotifiedPort, 0, raw, buf, p.pos, seen, [])
          == if s.Bad? then Bad(s.reason, s.pos) else Run(NotifiedPort, 1, raw, buf, s.pos, s.value.cache, [] + [s.value.item]);
      if s.Got? {
        assert [] + [s.value.item] == [s.value.item];
        BodyFound(NotifiedPort, raw, buf, s.pos, s.value.cache, s.value.item);
      }
    }
  }

  lemma NotifiedNeighbor(orig: nat, raw: bytes, kids: seq<Kid>)
    requires Wf(NotifiedPort, Node(orig, raw, [Absent, Group(kids), Absent]))
    ensures |raw| == PORT_SIZE && KidsWf(PortBody, raw, kids) && Slot(raw, P_CHASSIS) != 0
    ensures NeighborOf(NotifiedPort, Node(orig, raw, [Absent, Group(kids), Absent])) == NeighborView(raw, kids)
  {
    hide NeighborView, Slot, KidsWf;
    PortSchema();
    KidAt(NotifiedPort, Node(orig, raw, [Absent, Group(kids), Absent]), 1);
    KidAt(NotifiedPort, Node(orig, raw, [Absent, Group(kids), Absent]), 2);
  }

  method DecodeNotifiedPort(cursor: Cursor, cache: ChassisCache, ghost seen: Cache)
    returns (r: Result<Neighbor<ChassisArc>>)
    requires cursor.pos <= |cursor.buf| && Mirrors(cache.entries, seen)
    modifies cursor, cache
    ensures var w := Walk(NotifiedPort, cursor.buf, old(cursor.pos), seen);
            && cursor.pos == w.pos
            && (w.Bad? ==> r == Err(Protocol(w.reason)))
            && (w.Got? ==>
                  && Mirrors(cache.entries, w.value.cache)
                  && Wf(NotifiedPort, w.value.item)
                  && r.Ok? && BoundNeighbor(NeighborOf(NotifiedPort, w.value.item), cache.entries, r.value))
  {
    hide Walk, Run, ReadPod, Slot, Wf, KidsWf, Fields, Mirrors, NeighborOf, NeighborView, BoundNeighbor;
    MirrorsKeys(cache.entries, seen);
    WalkWf(NotifiedPort, cursor.buf, cursor.pos, seen);
    NotifiedFound(cursor.buf, cursor.pos, seen);
    ghost var pod := ReadPod(cursor.buf, cursor.pos, PORT_SIZE);
    var raw :- ReadChunkPod(cursor, NotifiedPort);
    if Slot(raw, TQE_NEXT) != 0 { return Err(Protocol(NotifiedPortChained)); }
    ghost var run := Run(PortBody, 0, raw, cursor.buf, cursor.pos, seen, []);
    var neighbor :- BuildNeighbor(cursor, raw, cache, seen, 0);
    NotifiedNeighbor(pod.value.0, raw, run.value.item);
    return Ok(neighbor);
  }

  /** The neighbor field of a change notice, after its two strings. */
  lemma LastFieldFound(raw: bytes, buf: bytes, pos: nat, kids: seq<Kid>)
    requires |raw| == CHANGE_SIZE && pos <= |buf| && |kids| == 2
    ensures var w := Walk(NotifiedPort, buf, pos, map[]);
            var run := Run(ChangeNotice, 2, raw, buf, pos, map[], kids);
            if Slot(raw, N_NEIGHBOR) == 0 then run == Got(Seen(kids + [Absent], map[]), pos)
            else if w.Bad? then run == Bad(w.reason, w.pos)
            else run == Got(Seen(kids + [Child(w.value.item)], w.value.cache), w.pos)
  {
    hide Slot, Walk, Fields;
    ChangeSchema();
    var s := Step(ChangeNotice, Fields(ChangeNotice)[2], raw, buf, pos, map[]);
    if s.Got? { RunEnd(ChangeNotice, raw, buf, s.pos, s.value.cache, kids + [s.value.item]); }
  }

  ghost predicate BoundChange(v: NeighborChange<ChassisUse>, e: map<nat, ChassisArc>, r: NeighborChange<ChassisArc>) {
    && r.interface == v.interface && r.interfaceAlias == v.interfaceAlias && r.kind == v.kind
    && match v.neighbor
       case None => r.neighbor == None
       case Some(n) => r.neighbor.Some? && BoundNeighbor(n, e, r.neighbor.value)
  }

  lemma ChangeFound(orig: nat, raw: bytes, k: seq<Kid>)
    requires Wf(ChangeNotice, Node(orig, raw, k)) && |k| == 3
    ensures |raw| == CHANGE_SIZE
    ensures k[2].Child? ==> Wf(NotifiedPort, k[2].tree)
    ensures ChangeOf(Node(orig, raw, k))
         == NeighborChange(GetOrEmpty(TextOf(k[0])), TextOf(k[1]), KindOf(Signed32(Le(raw[N_STATE..N_STATE + 4]))),
                           if k[2].Child? then Some(NeighborOf(NotifiedPort, k[2].tree)) else None)
  {
    hide TextOf, Le, NeighborOf, Slot, Fields, KindOf;
    ChangeSchema();
    KidAt(ChangeNotice, Node(orig, raw, k), 2);
  }

  method DecodeNeighborChange(payload: Payload)
    returns (r: Result<NeighborChange<ChassisArc>>, ghost e: map<nat, ChassisArc>)
    ensures r.Ok? <==> ChangeIn(payload).Ok?
    ensures r.Err? ==> r.error == ChangeIn(payload).error
    ensures r.Ok? ==> BoundChange(ChangeIn(payload).value, e, r.value)
    ensures r.Ok? ==> Mirrors(e, Walk(ChangeNotice, payload, 0, map[]).value.cache)
  {
    hide Walk, Run, ReadPod, Slot, Wf, Fields, Mirrors, NeighborOf, BoundNeighbor, OptWalk, TextOf, Le, ChangeOf;
    e := map[];
    MirrorsEmpty();
    ChangeSchema();
    var cursor := new Cursor(payload);
    PodFound(ChangeNotice, payload, 0, map[]);
    WalkWf(ChangeNotice, payload, 0, map[]);
    ghost var pod := ReadPod(payload, 0, CHANGE_SIZE);
    var raw :- ReadChunkPod(cursor, ChangeNotice);
    ghost var k := Advance(ChangeNotice, 0, raw, payload, cursor.pos, map[], []);
    var interface :- ReadOptCString(cursor, Slot(raw, N_IFNAME));
    k := Advance(ChangeNotice, 1, raw, payload, cursor.pos, map[], k);
    var interfaceAlias :- ReadOptCString(cursor, Slot(raw, N_IFALIAS));
    LastFieldFound(raw, payload, cursor.pos, k);
    var neighbor: Option<Neighbor<ChassisArc>> := None;
    if Slot(raw, N_NEIGHBOR) != 0 {
      ghost var w := Walk(NotifiedPort, payload, cursor.pos, map[]);
      var cache := new ChassisCache();
      var n :- DecodeNotifiedPort(cursor, cache, map[]);
      neighbor := Some(n);
      e := cache.entries;
      ChangeFound(pod.value.0, raw, k + [Child(w.value.item)]);
    } else {
      ChangeFound(pod.value.0, raw, k + [Absent]);
    }
    return Ok(NeighborChange(GetOrEmpty(interface), interfaceAlias, KindOf(Signed32(Le(raw[N_STATE..N_STATE + 4]))), neighbor)), e;
  }
}
