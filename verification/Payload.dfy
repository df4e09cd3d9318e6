/** Whole payloads: round trips, prefix-freeness, and blindness to trailing bytes. */
module Payload {
  import opened Bytes
  import opened Errors
  import opened Marshal
  import opened Emitter
  import opened RoundTrip
  import opened Locality
  import opened View

  /** The bytes of a whole message. */
  function Message(ty: Ty, t: Tree): bytes
    requires Wf(ty, t)
  {
    Emit(ty, t, {}).0
  }

  /** Reading a whole message: the tree, to the last byte, and every emitted chassis in the cache. */
  lemma MessageRead(ty: Ty, t: Tree, table: Cache)
    requires Wf(ty, t) && Agrees(ty, t, table) && |Message(ty, t)| < WORD_LIMIT
    ensures Walk(ty, Message(ty, t), 0, map[])
         == Got(Seen(t, Known(table, Emit(ty, t, {}).1)), |Message(ty, t)|)
  {
    hide Emit, Walk, Wf, Agrees;
    var b := Message(ty, t);
    assert b[0..0 + |b|] == b;
    assert Known(table, {}) == map[];
    TreeRead(ty, t, table, {}, b, 0);
  }

  lemma EmitHead(ty: Ty, t: Tree, done: set<nat>)
    requires Wf(ty, t)
    ensures var b := Emit(ty, t, done).0;
            b[..HEADER] == Word(t.orig) + Word(|b|)
  {
    hide EmitRun, KidsWf, ToLe;
    var b := Emit(ty, t, done).0;
    var head := Word(t.orig) + Word(|b|);
    if IsLeaf(ty) {
      assert b == head + t.body;
    } else {
      var tail := EmitRun(ty, 0, t.raw, t.kids, HEADER + |t.raw|, done).0;
      assert b == head + t.raw + tail;
    }
  }

  /**
   Every chunk of a serialized tree, at any depth and with anything around it, is
   read to exactly its start plus the size it declares, although the walk never
   uses that size to skip.
   */
  lemma EndsAtDeclaredSize(ty: Ty, t: Tree, table: Cache, done: set<nat>, buf: bytes, pos: nat)
    requires Wf(ty, t) && Agrees(ty, t, table)
    requires pos % 8 == 0 && |buf| < WORD_LIMIT && Holds(buf, pos, Emit(ty, t, done).0)
    ensures pos + HEADER <= |buf|
    ensures Walk(ty, buf, pos, Known(table, done)).Got?
    ensures Walk(ty, buf, pos, Known(table, done)).pos == pos + Slot(buf, pos + PTR)
  {
    hide EmitRun, Slot, KidsWf, ToLe, Walk, KidsAgree;
    TreeRead(ty, t, table, done, buf, pos);
    var b := Emit(ty, t, done).0;
    EmitHead(ty, t, done);
    assert b[PTR..PTR + PTR] == b[..HEADER][PTR..] == Word(|b|);
    SliceOfSlice(buf, pos, pos + |b|, PTR, PTR + PTR);
    SlotOfWord(buf, pos + PTR, |b|);
  }

  /** A hardware record survives serialization in the layout it was written in. */
  lemma HardwareRoundTrip(l: Layout, t: Tree, table: Cache)
    requires Wf(Hardware(l), t) && Agrees(Hardware(l), t, table) && |Message(Hardware(l), t)| < WORD_LIMIT
    ensures HardwareAs(l, Message(Hardware(l), t)) == Ok(HardwareOf(l, t))
    ensures l.Legacy? ==> HardwareIn(Message(Hardware(l), t)) == Ok(HardwareOf(l, t))
  {
    hide Emit, Walk, Wf, Agrees, HardwareOf, Message;
    MessageRead(Hardware(l), t, table);
  }

  lemma InterfacesRoundTrip(t: Tree)
    requires Wf(IfaceList, t) && Agrees(IfaceList, t, map[]) && |Message(IfaceList, t)| < WORD_LIMIT
    ensures InterfacesIn(Message(IfaceList, t)) == Ok(ListOf(t))
  {
    hide Emit, Walk, Wf, Agrees, ListOf, Message;
    MessageRead(IfaceList, t, map[]);
  }

  lemma ChangeRoundTrip(t: Tree, table: Cache)
    requires Wf(ChangeNotice, t) && Agrees(ChangeNotice, t, table) && |Message(ChangeNotice, t)| < WORD_LIMIT
    ensures ChangeIn(Message(ChangeNotice, t)) == Ok(ChangeOf(t))
  {
    hide Emit, Walk, Wf, Agrees, ChangeOf, Message;
    MessageRead(ChangeNotice, t, table);
  }

  /** Under one layout no accepted message is a proper prefix of another. */
  lemma PrefixFree(l: Layout, p: bytes, q: bytes)
    requires HardwareAs(l, p).Ok? && HardwareAs(l, q).Ok? && p <= q
    ensures p == q
  {
    hide Walk, HardwareOf, Wf;
    assert q[..|p|] == p == p[..|p|];
    WalkLocal(Hardware(l), p, q, 0, map[]);
  }

  /** Trailing bytes never change what an interface list or a change notice decodes to. */
  lemma TrailingBytesIgnored(payload: bytes, more: bytes)
    ensures InterfacesIn(payload).Ok? ==> InterfacesIn(payload + more) == InterfacesIn(payload)
    ensures ChangeIn(payload).Ok? ==> ChangeIn(payload + more) == ChangeIn(payload)
  {
    hide Walk, ListOf, ChangeOf, Wf;
    if InterfacesIn(payload).Ok? { ExtensionInvisible(IfaceList, payload, more, map[]); }
    if ChangeIn(payload).Ok? { ExtensionInvisible(ChangeNotice, payload, more, map[]); }
  }

  /** An accepted hardware message rejects every byte appended to it, and every truncation. */
  lemma AcceptedExactly(l: Layout, p: bytes, q: bytes)
    requires HardwareAs(l, p).Ok? && p != q && (p <= q || q <= p)
    ensures HardwareAs(l, q).Err?
  {
    hide HardwareAs;
    if HardwareAs(l, q).Ok? {
      if p <= q { PrefixFree(l, p, q); } else { PrefixFree(l, q, p); }
    }
  }
}
