/** Every list of interfaces has a message, and the message decodes to the list. */
module Lists {
  import opened Bytes
  import opened Errors
  import opened Raw
  import opened Model
  import opened Marshal
  import opened Sharing
  import opened View
  import opened Schemas
  import opened Patches
  import opened Payload
  import opened Encode

  /** An optional string as a chunk. */
  function TextKid(o: Option<bytes>): Kid {
    match o
    case None => Absent
    case Some(text) => Child(TextLeaf(1, text))
  }

  lemma TextKidSays(o: Option<bytes>)
    ensures TextOf(TextKid(o)) == o
    ensures TextKid(o).Child? ==> Wf(CString, TextKid(o).tree)
  {
    if o.Some? { TextSurvives(1, o.value); }
  }

  /** A pointer field whose slot says whether its chunk is there. */
  lemma PtrKid(ty: Ty, off: nat, t: Ty, raw: bytes, kid: Kid)
    requires |raw| == Size(ty) && off + PTR <= Size(ty)
    requires Slot(raw, off) == Mark(kid)
    requires kid.Absent? || (kid.Child? && Wf(t, kid.tree))
    ensures KidWf(ty, Ptr(off, t), raw, kid)
  {
    hide Slot, Wf;
  }

  function IfacePatches(next: Kid, alias: Kid): (ps: seq<Patch>)
    ensures |ps| == 3 && Ordered(ps, INTERFACE_SIZE)
  {
    hide ToLe;
    [Patch(TQE_NEXT, Word(Mark(next))), Patch(I_NAME, Word(1)), Patch(I_ALIAS, Word(Mark(alias)))]
  }

  function IfaceNode(x: Interface, next: Kid): Tree {
    var alias := TextKid(x.alias);
    Node(1, Filled(IfacePatches(next, alias), INTERFACE_SIZE), [next, Child(TextLeaf(1, x.name)), alias])
  }

  lemma IfaceNodeWf(x: Interface, next: Kid)
    requires next.Absent? || (next.Child? && Wf(Iface, next.tree))
    ensures Wf(Iface, IfaceNode(x, next))
  {
    hide Slot, Filled, Ordered, ToLe;
    IfaceSchema();
    var t, ps := IfaceNode(x, next), IfacePatches(next, TextKid(x.alias));
    FilledSlot(ps, INTERFACE_SIZE, 0, Mark(next));
    FilledSlot(ps, INTERFACE_SIZE, 1, 1);
    FilledSlot(ps, INTERFACE_SIZE, 2, Mark(t.kids[2]));
    TextKidSays(x.alias);
    PtrKid(Iface, TQE_NEXT, Iface, t.raw, next);
    PtrKid(Iface, I_NAME, CString, t.raw, t.kids[1]);
    PtrKid(Iface, I_ALIAS, CString, t.raw, t.kids[2]);
    assert KidsWf(Iface, t.raw, t.kids);
  }

  /** The elements as nested chunks: `next` before an element's own strings. */
  function IfaceKid(xs: seq<Interface>): Kid {
    if xs == [] then Absent else Child(IfaceNode(xs[0], IfaceKid(xs[1..])))
  }

  lemma {:induction false} IfaceKidSays(xs: seq<Interface>)
    ensures xs == [] <==> IfaceKid(xs).Absent?
    ensures xs != [] ==> IfaceKid(xs).Child? && Wf(Iface, IfaceKid(xs).tree) && InterfacesOf(IfaceKid(xs).tree) == xs
  {
    hide Wf, IfacePatches, Filled;
    if xs != [] {
      IfaceKidSays(xs[1..]);
      IfaceNodeWf(xs[0], IfaceKid(xs[1..]));
      TextSurvives(1, xs[0].name);
      TextKidSays(xs[0].alias);
      assert [xs[0]] + xs[1..] == xs;
    }
  }

  function ListTree(xs: seq<Interface>): Tree {
    Node(1, ListRaw(IfaceKid(xs)), [IfaceKid(xs)])
  }

  function ListRaw(first: Kid): (raw: bytes)
    ensures |raw| == INTERFACE_LIST_SIZE
  {
    hide ToLe;
    Filled([Patch(TQH_FIRST, Word(Mark(first)))], INTERFACE_LIST_SIZE)
  }

  lemma ListRawSlot(first: Kid)
    ensures Slot(ListRaw(first), TQH_FIRST) == Mark(first)
  {
    hide Slot, Filled, ToLe;
    FilledSlot([Patch(TQH_FIRST, Word(Mark(first)))], INTERFACE_LIST_SIZE, 0, Mark(first));
  }

  /** The list's whole message. */
  lemma ListTreeSays(xs: seq<Interface>)
    ensures Wf(IfaceList, ListTree(xs)) && ListOf(ListTree(xs)) == xs
  {
    hide Slot, IfaceKid, ListRaw, InterfacesOf;
    IfaceSchema();
    var t := ListTree(xs);
    IfaceKidSays(xs);
    ListRawSlot(t.kids[0]);
    PtrKid(IfaceList, TQH_FIRST, Iface, t.raw, t.kids[0]);
    assert KidsWf(IfaceList, t.raw, t.kids);
  }

  function ListMessage(xs: seq<Interface>): bytes {
    ListTreeSays(xs);
    Message(IfaceList, ListTree(xs))
  }

  /** Nested lists round trip: for every list, in order, to the last byte, whatever follows. */
  lemma ListRoundTrip(xs: seq<Interface>, more: bytes)
    requires |ListMessage(xs)| < WORD_LIMIT
    ensures InterfacesIn(ListMessage(xs) + more) == Ok(xs)
    ensures Walk(IfaceList, ListMessage(xs), 0, map[]).Got?
    ensures Walk(IfaceList, ListMessage(xs), 0, map[]).pos == |ListMessage(xs)|
  {
    hide Message, ListTree, Walk, Wf, InterfacesIn, ListOf;
    ListTreeSays(xs);
    ClosedAgrees(IfaceList, ListTree(xs), map[]);
    MessageRead(IfaceList, ListTree(xs), map[]);
    InterfacesRoundTrip(ListTree(xs));
    TrailingBytesIgnored(ListMessage(xs), more);
  }
}
