/** Two messages of a real daemon, byte for byte. */
module Captures {
  import opened Bytes
  import opened Errors
  import opened Raw
  import opened Model
  import opened Layouts
  import opened Marshal
  import opened Emitter
  import opened View
  import opened Sharing
  import opened Schemas
  import opened Payload
  import opened Encode

  const ETH0: bytes := [0x65, 0x74, 0x68, 0x30]
  const WLAN0: bytes := [0x77, 0x6c, 0x61, 0x6e, 0x30]
  const TEST_DESC_XYZ: bytes := [0x74, 0x65, 0x73, 0x74, 0x2d, 0x64, 0x65, 0x73, 0x63, 0x2d, 0x58, 0x59, 0x5a]

  // ---------------------------------------------------------------- the request

  /** A captured byte and the seven zeros after it. */
  function Low(b: byte): (w: bytes)
    ensures |w| == 8
  {
    [b] + Zeros(7)
  }

  function CapturedStruct(): (r: bytes)
    ensures |r| == PORT_SET_SIZE
  {
    ([0x02] + Zeros(15)) + ([0x03] + Zeros(23)) + ([0xff, 0xff, 0xff, 0xff] + Zeros(36))
  }

  function CapturedStrings(): (r: bytes)
    ensures |r| == 54
  {
    (Low(0x02) + Low(0x15) + [0x65, 0x74, 0x68, 0x30, 0x00]) + [0x00, 0x00, 0x00]
    + (Low(0x03) + Low(0x1e)
       + [0x74, 0x65, 0x73, 0x74, 0x2d, 0x64, 0x65, 0x73, 0x63, 0x2d, 0x58, 0x59, 0x5a, 0x00])
  }

  function CapturedSetPort(): (r: bytes)
    ensures |r| == 150
  {
    Low(0x01) + Low(0x96) + CapturedStruct() + CapturedStrings()
  }

  /** The encoder's request is the one the daemon's own client sends. */
  lemma SetPortIsCaptured()
    ensures SetPortRequest(ETH0, TEST_DESC_XYZ) == CapturedSetPort()
  {
    hide SetPortRequest, PortSetRaw, PortSetTail, ToLe;
    PortSetBytes(ETH0, TEST_DESC_XYZ);
    PortSetIsImage();
    SmallWord(1);
    SmallWord(0x96);
    TailIsCaptured();
  }

  lemma TailIsCaptured()
    ensures PortSetTail(ETH0, TEST_DESC_XYZ) == CapturedStrings()
  {
    hide ToLe;
    SmallWord(2);
    SmallWord(3);
    SmallWord(0x15);
    SmallWord(0x1e);
    assert Pad(PORT_SET_SIZE) == [];
    assert Pad(PORT_SET_SIZE + 21) == [0, 0, 0];
    var first := Pad(PORT_SET_SIZE) + StringChunk(2, ETH0 + [0]);
    assert first == Low(0x02) + Low(0x15) + [0x65, 0x74, 0x68, 0x30, 0x00];
    assert StringChunk(3, TEST_DESC_XYZ + [0])
        == Low(0x03) + Low(0x1e)
           + [0x74, 0x65, 0x73, 0x74, 0x2d, 0x64, 0x65, 0x73, 0x63, 0x2d, 0x58, 0x59, 0x5a, 0x00];
  }

  // ------------------------------------------------------------------- the reply

  /** The list head and the two interface structs, the sender's pointers included. */
  function ListHead(): (r: bytes)
    ensures |r| == INTERFACE_LIST_SIZE
  {
    Low(0x02) + [0x60, 0x0a, 0x14, 0xb3, 0x55, 0, 0, 0]
  }

  function FirstStruct(): (r: bytes)
    ensures |r| == INTERFACE_SIZE
  {
    Low(0x03) + [0xf0, 0x60, 0x6a, 0xdb, 0x7f, 0, 0, 0] + Low(0x05) + Low(0)
  }

  function SecondStruct(): (r: bytes)
    ensures |r| == INTERFACE_SIZE
  {
    Low(0) + [0x90, 0xb0, 0x13, 0xb3, 0x55, 0, 0, 0] + Low(0x04) + Low(0)
  }

  function CapturedWlan(): bytes {
    Low(0x03) + Low(0x46) + SecondStruct() + (Low(0x04) + Low(0x16) + [0x77, 0x6c, 0x61, 0x6e, 0x30, 0x00])
  }

  function CapturedEth(): bytes {
    Low(0x02) + Low(0x8d) + FirstStruct()
    + (CapturedWlan() + ([0x00, 0x00] + (Low(0x05) + Low(0x15) + [0x65, 0x74, 0x68, 0x30, 0x00])))
  }

  function CapturedList(): (r: bytes)
    ensures |r| == 173
  {
    Low(0x01) + Low(0xad) + ListHead() + CapturedEth()
  }

  // ------------------------------------------------------- what the reply stands for

  function Second(): Tree {
    Node(3, SecondStruct(), [Absent, Child(TextLeaf(4, WLAN0)), Absent])
  }

  function First(): Tree {
    Node(2, FirstStruct(), [Child(Second()), Child(TextLeaf(5, ETH0)), Absent])
  }

  function CapturedTree(): Tree {
    Node(1, ListHead(), [Child(First())])
  }

  lemma LowSlot(raw: bytes, off: nat, b: byte)
    requires off + PTR <= |raw| && raw[off..off + PTR] == Low(b)
    ensures Slot(raw, off) == b
  {
    hide Le, ToLe;
    SmallWord(b);
    SlotOfWord(raw, off, b);
  }

  lemma HeadSlots()
    ensures Slot(ListHead(), TQH_FIRST) == 2
  {
    hide Slot;
    LowSlot(ListHead(), TQH_FIRST, 2);
  }

  lemma FirstSlots()
    ensures Slot(FirstStruct(), TQE_NEXT) == 3 && Slot(FirstStruct(), I_NAME) == 5 && Slot(FirstStruct(), I_ALIAS) == 0
  {
    hide Slot;
    LowSlot(FirstStruct(), TQE_NEXT, 3);
    LowSlot(FirstStruct(), I_NAME, 5);
    LowSlot(FirstStruct(), I_ALIAS, 0);
  }

  lemma SecondSlots()
    ensures Slot(SecondStruct(), TQE_NEXT) == 0 && Slot(SecondStruct(), I_NAME) == 4 && Slot(SecondStruct(), I_ALIAS) == 0
  {
    hide Slot;
    LowSlot(SecondStruct(), TQE_NEXT, 0);
    LowSlot(SecondStruct(), I_NAME, 4);
    LowSlot(SecondStruct(), I_ALIAS, 0);
  }

  lemma TreesWf()
    ensures Wf(Iface, Second()) && Wf(Iface, First()) && Wf(IfaceList, CapturedTree())
  {
    hide Slot, ListHead, FirstStruct, SecondStruct;
    IfaceSchema();
    HeadSlots();
    FirstSlots();
    SecondSlots();
    KidsAre(SecondStruct(), Second().kids);
    KidsAre(FirstStruct(), First().kids);
    assert KidWf(IfaceList, Ptr(TQH_FIRST, Iface), ListHead(), CapturedTree().kids[0]);
    assert KidsWf(IfaceList, ListHead(), CapturedTree().kids);
  }

  lemma KidsAre(raw: bytes, kids: seq<Kid>)
    requires |raw| == INTERFACE_SIZE && |kids| == 3
    requires KidWf(Iface, Ptr(TQE_NEXT, Iface), raw, kids[0])
    requires KidWf(Iface, Ptr(I_NAME, CString), raw, kids[1])
    requires KidWf(Iface, Ptr(I_ALIAS, CString), raw, kids[2])
    ensures KidsWf(Iface, raw, kids)
  {
    hide KidWf;
    IfaceSchema();
  }

  /** An interface without an alias, serialized: what follows it in the list before its own name. */
  lemma IfaceEmitted(t: Tree, rest: bytes)
    requires Wf(Iface, t) && |t.kids| == 3 && t.kids[1].Child? && t.kids[2].Absent?
    requires t.kids[0].Absent? ==> rest == []
    requires t.kids[0].Child? ==> Wf(Iface, t.kids[0].tree) && Emit(Iface, t.kids[0].tree, {}) == (rest, {})
    ensures Wf(CString, t.kids[1].tree)
    ensures var name := Pad(HEADER + INTERFACE_SIZE + |rest|) + Emit(CString, t.kids[1].tree, {}).0;
            Emit(Iface, t, {})
            == (Word(t.orig) + Word(HEADER + INTERFACE_SIZE + |rest + name|) + t.raw + (rest + name), {})
  {
    hide Slot, ToLe, AlignUp, Wf;
    IfaceSchema();
    KidAt(Iface, t, 0);
    KidAt(Iface, t, 1);
    KidAt(Iface, t, 2);
    IfaceKids(t);
    var len := HEADER + INTERFACE_SIZE;
    var name := Pad(len + |rest|) + Emit(CString, t.kids[1].tree, {}).0;
    assert Pad(len) == [] by { Aligned(len); }
    assert EmitRun(Iface, 3, t.raw, t.kids, len + |rest| + |name|, {}) == ([], {});
    var none: bytes := [];
    assert none + none == none;
    assert EmitKid(Iface, Ptr(I_ALIAS, CString), t.raw, t.kids[2], len + |rest| + |name|, {}) == ([], {});
    assert EmitRun(Iface, 2, t.raw, t.kids, len + |rest| + |name|, {}) == ([], {});
    assert EmitKid(Iface, Ptr(I_NAME, CString), t.raw, t.kids[1], len + |rest|, {}) == (name, {});
    assert name + [] == name;
    assert EmitRun(Iface, 1, t.raw, t.kids, len + |rest|, {}) == (name, {});
    assert none + rest == rest;
    assert EmitKid(Iface, Ptr(TQE_NEXT, Iface), t.raw, t.kids[0], len, {}) == (rest, {});
    assert EmitRun(Iface, 0, t.raw, t.kids, len, {}) == (rest + name, {});
  }

  lemma IfaceKids(t: Tree)
    requires Wf(Iface, t)
    ensures t.Node? && |t.raw| == INTERFACE_SIZE && KidsWf(Iface, t.raw, t.kids)
  {
    hide KidsWf;
  }

  lemma Aligned(len: nat)
    requires len % PTR == 0
    ensures Pad(len) == []
  {
  }

  lemma SecondIsCaptured()
    ensures Wf(Iface, Second()) && Emit(Iface, Second(), {}) == (CapturedWlan(), {})
  {
    hide Slot, ToLe, SecondStruct, AlignUp, Wf, Emit;
    TreesWf();
    SmallWord(3);
    SmallWord(0x46);
    TextIsCaptured(4, WLAN0, {});
    Aligned(48);
    IfaceEmitted(Second(), []);
    var name := Low(4) + Low(0x16) + (WLAN0 + [0]);
    assert [] + ([] + name) == name;
    assert WLAN0 + [0] == [0x77, 0x6c, 0x61, 0x6e, 0x30, 0x00];
    assert Emit(Iface, Second(), {}).0 == Low(3) + Low(0x46) + SecondStruct() + name;
  }

  lemma FirstIsCaptured()
    ensures Wf(Iface, First()) && Emit(Iface, First(), {}) == (CapturedEth(), {})
  {
    hide Slot, ToLe, FirstStruct, CapturedWlan, Wf, Emit;
    TreesWf();
    SmallWord(2);
    SmallWord(0x8d);
    TextIsCaptured(5, ETH0, {});
    SecondIsCaptured();
    assert |CapturedWlan()| == 70 by { WlanLength(); }
    assert Pad(118) == [0, 0];
    IfaceEmitted(First(), CapturedWlan());
    assert ETH0 + [0] == [0x65, 0x74, 0x68, 0x30, 0x00];
  }

  lemma WlanLength()
    ensures |CapturedWlan()| == 70
  {
  }

  lemma TextIsCaptured(orig: nat, text: bytes, done: set<nat>)
    requires orig < 256 && HEADER + |text| + 1 < 256
    ensures Wf(CString, TextLeaf(orig, text))
    ensures Emit(CString, TextLeaf(orig, text), done) == (Low(orig) + Low(HEADER + |text| + 1) + (text + [0]), done)
  {
    hide ToLe;
    SmallWord(orig);
    SmallWord(HEADER + |text| + 1);
  }

  /** A list message whose first interface serializes to `rest`. */
  lemma ListEmitted(t: Tree, rest: bytes)
    requires Wf(IfaceList, t) && |t.kids| == 1 && t.kids[0].Child?
    requires Wf(Iface, t.kids[0].tree) && Emit(Iface, t.kids[0].tree, {}) == (rest, {})
    ensures Message(IfaceList, t) == Word(t.orig) + Word(HEADER + INTERFACE_LIST_SIZE + |rest|) + t.raw + rest
  {
    hide Slot, ToLe, AlignUp, Wf;
    IfaceSchema();
    KidAt(IfaceList, t, 0);
    ListKids(t);
    var len, none: bytes := HEADER + INTERFACE_LIST_SIZE, [];
    Aligned(len);
    assert none + rest == rest && rest + none == rest;
    assert EmitRun(IfaceList, 1, t.raw, t.kids, len + |rest|, {}) == ([], {});
    assert EmitKid(IfaceList, Ptr(TQH_FIRST, Iface), t.raw, t.kids[0], len, {}) == (rest, {});
    assert EmitRun(IfaceList, 0, t.raw, t.kids, len, {}) == (rest, {});
  }

  lemma TreeIsCaptured()
    ensures Wf(IfaceList, CapturedTree()) && Message(IfaceList, CapturedTree()) == CapturedList()
  {
    hide ToLe, ListHead, Wf, CapturedEth, Message, First, Emit, Zeros;
    TreesWf();
    FirstIsCaptured();
    SmallWord(1);
    SmallWord(0xad);
    assert |CapturedEth()| == 141 by { EthLength(); }
    ListEmitted(CapturedTree(), CapturedEth());
  }

  lemma ListKids(t: Tree)
    requires Wf(IfaceList, t)
    ensures t.Node? && |t.raw| == INTERFACE_LIST_SIZE && KidsWf(IfaceList, t.raw, t.kids)
  {
    hide KidsWf;
  }

  lemma EthLength()
    ensures |CapturedEth()| == 141
  {
    WlanLength();
  }

  /** The daemon's list, as the decoder reads it: eth0 before wlan0, no aliases. */
  lemma ListIsDecoded()
    ensures InterfacesIn(CapturedList()) == Ok([Interface(ETH0, None), Interface(WLAN0, None)])
  {
    hide Walk, Wf, Message, Slot, InterfacesIn;
    TreesWf();
    TreeIsCaptured();
    ClosedAgrees(IfaceList, CapturedTree(), map[]);
    InterfacesRoundTrip(CapturedTree());
    TextSurvives(4, WLAN0);
    TextSurvives(5, ETH0);
    assert TextOf(Absent) == None;
    assert InterfacesOf(Second()) == [Interface(WLAN0, None)];
    assert InterfacesOf(First()) == [Interface(ETH0, None)] + InterfacesOf(Second());
    assert ListOf(CapturedTree()) == [Interface(ETH0, None), Interface(WLAN0, None)];
  }
}
