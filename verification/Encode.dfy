/** The request encoders, against the marshal serializer. */
module Encode {
  import opened Bytes
  import opened Errors
  import opened Raw
  import opened Model
  import opened Layouts
  import opened Marshal
  import opened Emitter
  import opened Sharing
  import opened Payload
  import opened View

  /** A growing byte vector. */
  class ByteVec {
    var data: bytes

    constructor (data: bytes)
      ensures this.data == data
    {
      this.data := data;
    }

    method ExtendFromSlice(more: bytes)
      modifies this
      ensures data == old(data) + more
    {
      data := data + more;
    }

    method Push(b: byte)
      modifies this
      ensures data == old(data) + [b]
    {
      data := data + [b];
    }
  }

  /** A null-terminated string chunk. */
  function TextLeaf(orig: nat, text: bytes): Tree {
    Leaf(orig, text + [0])
  }

  /** Whatever a text holds, embedded or trailing NULs included, the reader returns it. */
  lemma TextSurvives(orig: nat, text: bytes)
    ensures TextOf(Child(TextLeaf(orig, text))) == Some(text)
  {
    assert (text + [0])[..|text|] == text;
  }

  method EncodeInterfaceNameRequest(name: bytes) returns (r: bytes)
    ensures r == Message(CString, TextLeaf(1, name))
  {
    hide ToLe;
    var body := new ByteVec(name);
    body.Push(0);
    var out := new ByteVec(Word(1));
    out.ExtendFromSlice(Word(2 * PTR + |body.data|));
    out.ExtendFromSlice(body.data);
    return out.data;
  }

  /** Appends a string chunk, padded relative to what the buffer holds so far. */
  method PushStringChunk(buf: ByteVec, orig: nat, content: bytes)
    modifies buf
    ensures buf.data == old(buf.data) + Pad(|old(buf.data)|) + (Word(orig) + Word(HEADER + |content|) + content)
  {
    hide ToLe, AlignUp;
    var pad := AlignUp(|buf.data|, PTR) - |buf.data|;
    ghost var was := buf.data;
    buf.ExtendFromSlice(Zeros(pad));
    assert Zeros(pad) == Pad(|was|);
    buf.ExtendFromSlice(Word(orig));
    buf.ExtendFromSlice(Word(2 * PTR + |content|));
    buf.ExtendFromSlice(content);
    assert buf.data == was + Pad(|was|) + (Word(orig) + Word(HEADER + |content|) + content);
  }

  /** `RawPortSet` as the encoder fills it: ids 2 and 3, `vlan_tx_enabled` -1, all else zero. */
  function PortSetValues(): (vs: seq<nat>)
    ensures |vs| == 11
  {
    [2, 0, 3, 0, 0, 0, 0xFFFF_FFFF, 0, 0, 0, 0]
  }

  function PortSetRaw(): (r: bytes)
    ensures |r| == PORT_SET_SIZE
  {
    PortSetLayout();
    PodBytes(PortSetFields(), PortSetValues())
  }

  /** The whole request as a tree. */
  function PortSetTree(ifname: bytes, description: bytes): Tree {
    Node(1, PortSetRaw(), [Child(TextLeaf(2, ifname)), Child(TextLeaf(3, description))])
  }

  lemma PortSetValueFits(i: nat)
    requires i < 11
    ensures PortSetValues()[i] < Pow256(PortSetFields()[i].size)
  {
    hide Pow256;
    Widths();
    assert PortSetFields()[i].size == 4 || PortSetFields()[i].size == 8;
  }

  /** Every field of the request struct reads back as it was set. */
  lemma PortSetField(i: nat)
    requires i < 11
    ensures SizeOf(PortSetFields()) == PORT_SET_SIZE
    ensures FieldOf(PortSetRaw(), PortSetFields(), i) == PortSetValues()[i]
  {
    hide PodBytes, FieldOf, SizeOf, Pow256, PortSetFields, PortSetValues;
    PortSetLayout();
    PortSetValueFits(i);
    PodRoundTrip(PortSetFields(), PortSetValues(), i);
  }

  lemma PutNone()
    ensures Put(PortSetFields(), PortSetValues(), 0) == []
  {
  }

  /** One more field of the request struct. */
  lemma PutOne(i: nat, done: bytes, gap: nat)
    requires i < 11 && Put(PortSetFields(), PortSetValues(), i) == done
    requires Offset(PortSetFields(), i) == |done| + gap
    ensures Put(PortSetFields(), PortSetValues(), i + 1)
         == done + Zeros(gap) + ToLe(PortSetValues()[i], PortSetFields()[i].size)
  {
    hide Offset, End, ToLe, PortSetFields, PortSetValues;
  }

  lemma {:induction false} ZeroBytes(n: nat)
    ensures ToLe(0, n) == Zeros(n)
  {
    if n > 0 {
      ZeroBytes(n - 1);
      assert [0] + Zeros(n - 1) == Zeros(n);
    }
  }

  /** A small number, as a word. */
  lemma SmallWord(v: nat)
    requires v < 256
    ensures Word(v) == [v] + Zeros(7)
  {
    ZeroBytes(7);
  }

  lemma AllOnes()
    ensures ToLe(0xFFFF_FFFF, 4) == [255, 255, 255, 255]
  {
  }

  /** The request struct, byte by byte. */
  function PortSetImage(): (r: bytes)
    ensures |r| == PORT_SET_SIZE
  {
    ([2] + Zeros(15)) + ([3] + Zeros(23)) + ([255, 255, 255, 255] + Zeros(36))
  }

  lemma PortSetIsImage()
    ensures PortSetRaw() == PortSetImage()
  {
    hide Offset, End, SizeOf, MaxAlign, ToLe, Put, AlignUp;
    PortSetOffsets();
    var fs, vs := PortSetFields(), PortSetValues();
    PutNone();
    PutOne(0, [], 0);
    PutOne(1, Put(fs, vs, 1), 0);
    PutOne(2, Put(fs, vs, 2), 0);
    PutOne(3, Put(fs, vs, 3), 0);
    PutOne(4, Put(fs, vs, 4), 0);
    PutOne(5, Put(fs, vs, 5), 0);
    PutOne(6, Put(fs, vs, 6), 0);
    PutOne(7, Put(fs, vs, 7), 4);
    PutOne(8, Put(fs, vs, 8), 0);
    PutOne(9, Put(fs, vs, 9), 0);
    PutOne(10, Put(fs, vs, 10), 0);
    SmallWord(2);
    SmallWord(3);
    ZeroBytes(8);
    ZeroBytes(4);
    AllOnes();
    PortSetLayout();
    assert PortSetRaw() == Put(fs, vs, 11) + Zeros(0);
    assert PortSetRaw() == PortSetImage();
  }

  lemma PortSetSlots()
    ensures Slot(PortSetRaw(), S_IFNAME) == 2 && Slot(PortSetRaw(), S_LOCAL_DESCR) == 3
  {
    hide PortSetRaw, Le, SizeOf;
    PortSetLayout();
    PortSetField(0);
    PortSetField(2);
  }

  lemma PortSetWf(ifname: bytes, description: bytes)
    ensures Wf(PortSet, PortSetTree(ifname, description))
  {
    hide Slot, PortSetRaw;
    PortSetSlots();
    var t := PortSetTree(ifname, description);
    assert Fields(PortSet) == [Ptr(S_IFNAME, CString), Ptr(S_LOCAL_DESCR, CString)];
    assert KidWf(PortSet, Fields(PortSet)[0], t.raw, t.kids[0]);
    assert KidWf(PortSet, Fields(PortSet)[1], t.raw, t.kids[1]);
    assert KidsWf(PortSet, t.raw, t.kids);
  }

  /** Padding is the same whether or not the 16-byte root header is counted. */
  lemma PadShift(len: nat)
    ensures Pad(HEADER + len) == Pad(len)
  {
    hide AlignUp;
    AlignWord(16, len);
  }

  /** A string chunk's bytes. */
  function StringChunk(orig: nat, content: bytes): (r: bytes)
    ensures |r| == HEADER + |content|
  {
    Word(orig) + Word(HEADER + |content|) + content
  }

  /** What follows the request struct, padded relative to the struct alone. */
  function PortSetTail(ifname: bytes, description: bytes): bytes {
    var first := Pad(PORT_SET_SIZE) + StringChunk(2, ifname + [0]);
    first + (Pad(PORT_SET_SIZE + |first|) + StringChunk(3, description + [0]))
  }

  /** The SET_PORT request as the marshal serializer writes it. */
  function SetPortRequest(ifname: bytes, description: bytes): bytes {
    PortSetWf(ifname, description);
    Message(PortSet, PortSetTree(ifname, description))
  }

  lemma PortSetBytes(ifname: bytes, description: bytes)
    ensures var tail := PortSetTail(ifname, description);
            SetPortRequest(ifname, description)
            == Word(1) + Word(HEADER + PORT_SET_SIZE + |tail|) + PortSetRaw() + tail
  {
    hide Slot, PortSetRaw, Word, Pad, KidsWf, KidWf;
    PortSetWf(ifname, description);
    var t := PortSetTree(ifname, description);
    KidAt(PortSet, t, 0);
    KidAt(PortSet, t, 1);
    assert Fields(PortSet) == [Ptr(S_IFNAME, CString), Ptr(S_LOCAL_DESCR, CString)];
    PortSetKid(t.raw, TextLeaf(2, ifname), PORT_SET_SIZE, S_IFNAME);
    var first := Pad(PORT_SET_SIZE) + StringChunk(2, ifname + [0]);
    PortSetKid(t.raw, TextLeaf(3, description), PORT_SET_SIZE + |first|, S_LOCAL_DESCR);
    var second := Pad(PORT_SET_SIZE + |first|) + StringChunk(3, description + [0]);
    var len := HEADER + PORT_SET_SIZE;
    assert EmitRun(PortSet, 2, t.raw, t.kids, len + |first| + |second|, {}) == ([], {});
    assert second + [] == second;
    assert EmitRun(PortSet, 1, t.raw, t.kids, len + |first|, {}) == (second, {});
    assert EmitRun(PortSet, 0, t.raw, t.kids, len, {}) == (first + second, {});
  }

  /**
   The struct behind a root header names chunk 2 as the interface name and chunk
   3 as the description, says -1 for `vlan_tx_enabled`, and is zero everywhere else.
   */
  predicate SetsDescriptionOnly(m: bytes) {
    var enabled := HEADER + S_VLAN_TX_ENABLED;
    && |m| >= HEADER + PORT_SET_SIZE
    && Slot(m, HEADER + S_IFNAME) == 2 && Slot(m, HEADER + S_LOCAL_DESCR) == 3
    && Signed32(Le(m[enabled..enabled + 4])) == -1
    && forall i | HEADER <= i < HEADER + PORT_SET_SIZE ::
         i == HEADER + S_IFNAME || i == HEADER + S_LOCAL_DESCR || enabled <= i < enabled + 4 || m[i] == 0
  }

  /** The request on the wire, for any two texts. */
  lemma SetPortStruct(ifname: bytes, description: bytes)
    ensures SetsDescriptionOnly(SetPortRequest(ifname, description))
  {
    hide SetPortRequest, PortSetTail, PortSetRaw, ToLe, Le;
    PortSetBytes(ifname, description);
    PortSetIsImage();
    SmallWord(2);
    SmallWord(3);
    var m, image := SetPortRequest(ifname, description), PortSetImage();
    assert m[HEADER..HEADER + PORT_SET_SIZE] == image;
    assert forall i | HEADER <= i < HEADER + PORT_SET_SIZE :: m[i] == image[i - HEADER];
    ImageSlots(m);
  }

  /** The words of the request struct, wherever its bytes stand behind a header. */
  lemma ImageSlots(m: bytes)
    requires |m| >= HEADER + PORT_SET_SIZE && m[HEADER..HEADER + PORT_SET_SIZE] == PortSetImage()
    ensures Slot(m, HEADER + S_IFNAME) == 2 && Slot(m, HEADER + S_LOCAL_DESCR) == 3
    ensures Signed32(Le(m[HEADER + S_VLAN_TX_ENABLED..HEADER + S_VLAN_TX_ENABLED + 4])) == -1
  {
    hide ToLe, Le;
    SmallWord(2);
    SmallWord(3);
    AllOnes();
    var image := PortSetImage();
    SliceOfSlice(m, HEADER, HEADER + PORT_SET_SIZE, S_IFNAME, S_IFNAME + PTR);
    SliceOfSlice(m, HEADER, HEADER + PORT_SET_SIZE, S_LOCAL_DESCR, S_LOCAL_DESCR + PTR);
    SliceOfSlice(m, HEADER, HEADER + PORT_SET_SIZE, S_VLAN_TX_ENABLED, S_VLAN_TX_ENABLED + 4);
    assert image[S_IFNAME..S_IFNAME + PTR] == [2] + Zeros(7);
    assert image[S_LOCAL_DESCR..S_LOCAL_DESCR + PTR] == [3] + Zeros(7);
    assert image[S_VLAN_TX_ENABLED..S_VLAN_TX_ENABLED + 4] == [255, 255, 255, 255];
    SlotOfWord(m, HEADER + S_IFNAME, 2);
    SlotOfWord(m, HEADER + S_LOCAL_DESCR, 3);
    Widths();
    LeOfToLe(0xFFFF_FFFF, 4);
  }

  lemma PortSetKid(raw: bytes, leaf: Tree, len: nat, off: nat)
    requires leaf.Leaf? && |raw| == PORT_SET_SIZE && off + PTR <= PORT_SET_SIZE
    requires KidWf(PortSet, Ptr(off, CString), raw, Child(leaf))
    ensures EmitKid(PortSet, Ptr(off, CString), raw, Child(leaf), HEADER + len, {})
         == (Pad(len) + StringChunk(leaf.orig, leaf.body), {})
  {
    hide Slot, Word, Pad;
    PadShift(len);
    assert Emit(CString, leaf, {}) == (StringChunk(leaf.orig, leaf.body), {});
  }

  /** A zeroed struct, padding included, with three fields assigned. */
  method BuildPortSet() returns (pod: bytes)
    ensures pod == PortSetRaw()
  {
    hide PodBytes, PortSetFields;
    var vals: seq<nat> := [0, 0, 0, 0, 0, 0, 0, 0, 0, 0, 0];
    vals := vals[0 := 2];
    vals := vals[2 := 3];
    vals := vals[6 := 0xFFFF_FFFF];
    assert vals == PortSetValues();
    pod := PodBytes(PortSetFields(), vals);
  }

  method EncodeSetPortDescriptionRequest(ifname: bytes, description: bytes) returns (r: bytes)
    ensures r == SetPortRequest(ifname, description)
  {
    hide Word, Pad, PodBytes, Message, Wf, PortSetRaw;
    PortSetBytes(ifname, description);
    var ifnameBody := new ByteVec(ifname);
    ifnameBody.Push(0);
    var descrBody := new ByteVec(description);
    descrBody.Push(0);
    var pod := BuildPortSet();
    var body := new ByteVec(pod);
    PushStringChunk(body, 2, ifnameBody.data);
    PushStringChunk(body, 3, descrBody.data);
    assert body.data == PortSetRaw() + PortSetTail(ifname, description);
    var out := new ByteVec(Word(1));
    out.ExtendFromSlice(Word(2 * PTR + |body.data|));
    out.ExtendFromSlice(body.data);
    r := out.data;
    assert r == Word(1) + Word(HEADER + |body.data|) + PortSetRaw() + PortSetTail(ifname, description);
  }

  /** Chunk 1 is the struct, chunks 2 and 3 the two strings its pointers name. */
  predicate AsksFor(t: Tree, ifname: bytes, description: bytes) {
    && t.Node? && t.orig == 1 && t.raw == PortSetRaw() && |t.kids| == 2
    && (forall i | 0 <= i < 2 :: t.kids[i].Child? && t.kids[i].tree.orig == i + 2)
    && TextOf(t.kids[0]) == Some(ifname) && TextOf(t.kids[1]) == Some(description)
  }

  /**
   The daemon's reading of a SET_PORT request: the struct with every field as set,
   both strings whatever bytes they hold, nothing left over, and a declared size
   that is the message's length.
   */
  lemma SetPortInverts(ifname: bytes, description: bytes)
    requires |ifname| + |description| + 256 < WORD_LIMIT
    ensures var m := SetPortRequest(ifname, description);
            var r := Walk(PortSet, m, 0, map[]);
            && r.Got? && r.pos == |m| && |m| >= HEADER && Slot(m, PTR) == |m|
            && AsksFor(r.value.item, ifname, description)
  {
    hide Slot, Message, Walk, Wf, TextOf, PortSetRaw, Emit;
    var t := PortSetTree(ifname, description);
    PortSetWf(ifname, description);
    PortSetLength(ifname, description);
    ClosedAgrees(PortSet, t, map[]);
    MessageRead(PortSet, t, map[]);
    MessageDeclaresItself(PortSet, t);
    TextSurvives(2, ifname);
    TextSurvives(3, description);
  }

  lemma PortSetLength(ifname: bytes, description: bytes)
    ensures |SetPortRequest(ifname, description)| < |ifname| + |description| + 256
  {
    hide SetPortRequest, ToLe, AlignUp, PortSetRaw;
    PortSetBytes(ifname, description);
  }

  lemma MessageDeclaresItself(ty: Ty, t: Tree)
    requires Wf(ty, t) && Agrees(ty, t, map[]) && |Message(ty, t)| < WORD_LIMIT
    ensures |Message(ty, t)| >= HEADER && Slot(Message(ty, t), PTR) == |Message(ty, t)|
  {
    hide Slot, Walk, Wf, Emit;
    var m := Message(ty, t);
    assert m[0..0 + |m|] == m;
    EndsAtDeclaredSize(ty, t, map[], {}, m, 0);
    MessageRead(ty, t, map[]);
    KnownOfNothing();
  }

  lemma KnownOfNothing()
    ensures Known(map[], {}) == map[]
  {
  }

  /** The interface-name request reads back as the name, to its last byte. */
  lemma NameRequestInverts(name: bytes)
    requires |name| + 256 < WORD_LIMIT
    ensures var m := Message(CString, TextLeaf(1, name));
            var r := Walk(CString, m, 0, map[]);
            r.Got? && r.pos == |m| && TextOf(Child(r.value.item)) == Some(name)
  {
    hide Walk, TextOf, Message;
    NameRequestLength(name);
    MessageRead(CString, TextLeaf(1, name), map[]);
    TextSurvives(1, name);
  }

  /** The interface-name request on the wire: id 1, the declared size, the name, one NUL. */
  lemma NameRequestBytes(name: bytes)
    ensures Message(CString, TextLeaf(1, name)) == Word(1) + Word(HEADER + |name| + 1) + name + [0]
  {
    hide ToLe;
    var body := name + [0];
    assert Message(CString, TextLeaf(1, name)) == Word(1) + Word(HEADER + |body|) + body;
    assert Word(1) + Word(HEADER + |body|) + body == Word(1) + Word(HEADER + |body|) + name + [0];
  }

  lemma NameRequestLength(name: bytes)
    ensures |Message(CString, TextLeaf(1, name))| == HEADER + |name| + 1
  {
    hide ToLe;
  }
}
