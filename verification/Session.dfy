/** The blocking client and the subscription, over a framed stream. */
module Session {
  import opened Bytes
  import opened Errors
  import opened Model
  import opened Marshal
  import opened View
  import opened Decode
  import opened Values
  import opened Transport
  import Payload
  import Encode

  // ------------------------------------------------ what a stream of replies says

  /** What a reply's outcome says about an interface. */
  function DetailsFrom(m: Result<bytes>): Result<Details> {
    match m
    case Ok(payload) => DetailsIn(payload)
    case Err(e) => Err(e)
  }

  function InterfacesFrom(m: Result<bytes>): Result<seq<Interface>> {
    match m
    case Ok(payload) => InterfacesIn(payload)
    case Err(e) => Err(e)
  }

  function DoneFrom(m: Result<bytes>): Result<()> {
    match m
    case Ok(_) => Ok(())
    case Err(e) => Err(e)
  }

  /** Only an orderly end of the stream ends a subscription. */
  function ItemFrom(m: Result<bytes>): Option<Result<Change>> {
    match m
    case Ok(payload) => Some(NoticeIn(payload))
    case Err(Io(UnexpectedEof)) => None
    case Err(e) => Some(Err(e))
  }

  /** An error is passed on as it is; a payload is decoded, or dropped where nothing is asked. */
  lemma ErrorsPassThrough(m: Result<bytes>)
    ensures m.Err? ==>
              DetailsFrom(m) == Err(m.error) && InterfacesFrom(m) == Err(m.error) && DoneFrom(m) == Err(m.error)
    ensures m.Ok? ==>
              && DetailsFrom(m) == DetailsIn(m.value) && InterfacesFrom(m) == InterfacesIn(m.value)
              && DoneFrom(m) == Ok(())
  {
    hide DetailsIn, InterfacesIn;
  }

  /** A subscription ends exactly where a read meets the end of the stream; every other error is an item. */
  lemma EndIsEof(m: Result<bytes>)
    ensures ItemFrom(m) == None <==> m == Err(Io(UnexpectedEof))
    ensures m.Err? && m.error != Io(UnexpectedEof) ==> ItemFrom(m) == Some(Err(m.error))
    ensures m.Ok? ==> ItemFrom(m) == Some(NoticeIn(m.value))
  {
    hide NoticeIn;
  }

  /** The request that asks about one interface. */
  function NameRequest(name: bytes): bytes {
    Payload.Message(CString, Encode.TextLeaf(1, name))
  }

  /** The requests of a batch query, as frames. */
  function QueryFrames(names: seq<bytes>): seq<Frame> {
    seq(|names|, k requires 0 <= k < |names| => Frame(Code(GetInterface), NameRequest(names[k])))
  }

  /** Everything a batch asks: the list, then each of these interfaces. */
  function BatchRequests(names: seq<bytes>): (fs: seq<Frame>)
    ensures |fs| == 1 + |names|
  {
    [Frame(Code(GetInterfaces), [])] + QueryFrames(names)
  }

  /** The position after `k` reads that expect `ty`. */
  function PosAfter(wire: Wire, pos: nat, ty: HmsgType, k: nat): (p: nat)
    requires pos <= |wire.incoming|
    ensures p <= |wire.incoming|
  {
    if k == 0 then pos else MessageAt(wire, PosAfter(wire, pos, ty, k - 1), ty).1
  }

  /** What the `k`-th reply to GET_INTERFACE says. */
  function ReplyAt(wire: Wire, pos: nat, k: nat): Result<Details>
    requires pos <= |wire.incoming|
  {
    DetailsFrom(MessageAt(wire, PosAfter(wire, pos, GetInterface, k), GetInterface).0)
  }

  function Replies(wire: Wire, pos: nat, n: nat): (rs: seq<Result<Details>>)
    requires pos <= |wire.incoming|
    ensures |rs| == n
  {
    seq(n, k requires 0 <= k < n => ReplyAt(wire, pos, k))
  }

  /** An interface that is gone by the time it is asked about is skipped; nothing else is. */
  predicate Fatal<T>(r: Result<T>) {
    r.Err? && r.error != RequestRejected
  }

  predicate NoneFatal<T>(rs: seq<Result<T>>) {
    forall k | 0 <= k < |rs| :: !Fatal(rs[k])
  }

  /** The first result that ends a batch, if any. */
  function FirstFatal<T>(rs: seq<Result<T>>): (k: nat)
    ensures k <= |rs| && NoneFatal(rs[..k])
    ensures k < |rs| ==> Fatal(rs[k])
  {
    if rs == [] || Fatal(rs[0]) then 0
    else
      var k := FirstFatal(rs[1..]);
      assert rs[..1 + k] == [rs[0]] + rs[1..][..k];
      1 + k
  }

  /** The values among the results, in order. */
  function Kept<T>(rs: seq<Result<T>>): seq<T> {
    if rs == [] then []
    else
      var last := rs[|rs| - 1];
      Kept(rs[..|rs| - 1]) + if last.Ok? then [last.value] else []
  }

  datatype Run<+T> = Run(result: Result<T>, pos: nat, requests: seq<Frame>)

  /** A whole batch: the list of interfaces, then one query each, up to the first fatal reply. */
  function BatchAt(wire: Wire, pos: nat): Run<seq<Details>>
    requires pos <= |wire.incoming|
  {
    var (listed, p) := MessageAt(wire, pos, GetInterfaces);
    match InterfacesFrom(listed)
    case Err(e) => Run(Err(e), p, BatchRequests([]))
    case Ok(ifaces) =>
      var names := Names(ifaces);
      var rs := Replies(wire, p, |names|);
      var k := FirstFatal(rs);
      if k < |rs| then Run(Err(rs[k].error), PosAfter(wire, p, GetInterface, k + 1), BatchRequests(names[..k + 1]))
      else Run(Ok(Kept(rs)), PosAfter(wire, p, GetInterface, |rs|), BatchRequests(names))
  }

  function Names(ifaces: seq<Interface>): seq<bytes> {
    seq(|ifaces|, k requires 0 <= k < |ifaces| => ifaces[k].name)
  }

  function DetailsValues(ds: seq<InterfaceDetails<ChassisArc>>): seq<Details> {
    seq(|ds|, k requires 0 <= k < |ds| => DetailsValue(ds[k]))
  }

  /** The payloads of the replies that are kept, in order. */
  function Heard(wire: Wire, pos: nat, n: nat): seq<bytes>
    requires pos <= |wire.incoming|
  {
    if n == 0 then []
    else
      Heard(wire, pos, n - 1) +
      if ReplyAt(wire, pos, n - 1).Ok?
      then [MessageAt(wire, PosAfter(wire, pos, GetInterface, n - 1), GetInterface).0.value]
      else []
  }

  function BatchPayloads(wire: Wire, pos: nat): seq<bytes>
    requires pos <= |wire.incoming|
  {
    var (listed, p) := MessageAt(wire, pos, GetInterfaces);
    match InterfacesFrom(listed)
    case Err(_) => []
    case Ok(ifaces) => Heard(wire, p, |ifaces|)
  }

  /** Each record shares its chassis objects exactly as its own payload shares ids. */
  ghost predicate AllShareExactly(payloads: seq<bytes>, ds: seq<InterfaceDetails<ChassisArc>>) {
    && |ds| == |payloads|
    && forall k | 0 <= k < |ds| :: HardwareIn(payloads[k]).Ok? && SharesExactly(HardwareIn(payloads[k]).value, ds[k])
  }

  lemma OneMoreHeard(wire: Wire, pos: nat, i: nat, ds: seq<InterfaceDetails<ChassisArc>>,
                     d: InterfaceDetails<ChassisArc>)
    requires pos <= |wire.incoming| && AllShareExactly(Heard(wire, pos, i), ds) && ReplyAt(wire, pos, i).Ok?
    requires var m := MessageAt(wire, PosAfter(wire, pos, GetInterface, i), GetInterface).0;
             m.Ok? && HardwareIn(m.value).Ok? && SharesExactly(HardwareIn(m.value).value, d)
    ensures AllShareExactly(Heard(wire, pos, i + 1), ds + [d])
  {
    hide MessageAt, HardwareIn, SharesExactly, PosAfter, MapDetails;
  }

  lemma NothingHeard(wire: Wire, pos: nat, i: nat, ds: seq<InterfaceDetails<ChassisArc>>)
    requires pos <= |wire.incoming| && AllShareExactly(Heard(wire, pos, i), ds) && ReplyAt(wire, pos, i).Err?
    ensures AllShareExactly(Heard(wire, pos, i + 1), ds)
  {
    hide AllShareExactly, MessageAt, ReplyAt, PosAfter;
    assert Heard(wire, pos, i) + [] == Heard(wire, pos, i);
  }

  /** One more reply to a batch that has met no fatal one so far. */
  lemma OneMoreReply(wire: Wire, pos: nat, n: nat, i: nat)
    requires pos <= |wire.incoming| && i < n && NoneFatal(Replies(wire, pos, i))
    ensures var r := ReplyAt(wire, pos, i);
            && Kept(Replies(wire, pos, i + 1)) == Kept(Replies(wire, pos, i)) + (if r.Ok? then [r.value] else [])
            && (!Fatal(r) ==> NoneFatal(Replies(wire, pos, i + 1)))
            && Replies(wire, pos, n)[i] == r && (Fatal(r) ==> FirstFatal(Replies(wire, pos, n)) == i)
  {
    hide ReplyAt, FirstFatal;
    var now, next, all := Replies(wire, pos, i), Replies(wire, pos, i + 1), Replies(wire, pos, n);
    assert next[..i] == now == all[..i];
    FirstIs(all, i);
  }

  lemma FirstIs<T>(rs: seq<Result<T>>, i: nat)
    requires i < |rs| && NoneFatal(rs[..i])
    ensures Fatal(rs[i]) ==> FirstFatal(rs) == i
  {
    hide FirstFatal;
    var k := FirstFatal(rs);
    assert forall j | 0 <= j < i :: !Fatal(rs[..i][j]) && rs[..i][j] == rs[j];
    assert forall j | 0 <= j < k :: !Fatal(rs[..k][j]) && rs[..k][j] == rs[j];
  }

  /** One more request on the stream. */
  lemma OneMoreRequest(names: seq<bytes>, i: nat, ptr: PtrSize)
    requires i < |names|
    ensures StreamOf(QueryFrames(names[..i + 1]), ptr)
         == StreamOf(QueryFrames(names[..i]), ptr) + RequestBytes(GetInterface, NameRequest(names[i]), ptr)
  {
    hide NameRequest, FrameBytes, StreamOf;
    var fs, last := QueryFrames(names[..i + 1]), Frame(Code(GetInterface), NameRequest(names[i]));
    StreamSplit(fs, i, ptr);
    assert fs[..i] == QueryFrames(names[..i]) && fs[i..] == [last];
    StreamOfOne(last, ptr);
    SameBytes(GetInterface, NameRequest(names[i]), ptr);
  }

  lemma NextPosition(wire: Wire, pos: nat, i: nat)
    requires pos <= |wire.incoming|
    ensures var (m, p) := MessageAt(wire, PosAfter(wire, pos, GetInterface, i), GetInterface);
            ReplyAt(wire, pos, i) == DetailsFrom(m) && PosAfter(wire, pos, GetInterface, i + 1) == p
  {
    hide MessageAt, DetailsFrom;
  }

  /** A request is a frame. */
  lemma SameBytes(ty: HmsgType, payload: bytes, ptr: PtrSize)
    ensures RequestBytes(ty, payload, ptr) == FrameBytes(Frame(Code(ty), payload), ptr)
  {
    hide HeaderBytes;
  }

  /** A batch begins by asking for the list. */
  lemma ListFirst(names: seq<bytes>, ptr: PtrSize)
    ensures StreamOf(BatchRequests(names), ptr) == RequestBytes(GetInterfaces, [], ptr) + StreamOf(QueryFrames(names), ptr)
  {
    hide FrameBytes, StreamOf;
    var f := Frame(Code(GetInterfaces), []);
    StreamSplit([f] + QueryFrames(names), 1, ptr);
    assert ([f] + QueryFrames(names))[..1] == [f] && ([f] + QueryFrames(names))[1..] == QueryFrames(names);
    StreamOfOne(f, ptr);
    SameBytes(GetInterfaces, [], ptr);
  }

  lemma NothingYet(wire: Wire, pos: nat, names: seq<bytes>)
    requires pos <= |wire.incoming|
    ensures Heard(wire, pos, 0) == [] && Kept(Replies(wire, pos, 0)) == [] && NoneFatal(Replies(wire, pos, 0))
    ensures PosAfter(wire, pos, GetInterface, 0) == pos
    ensures StreamOf(QueryFrames(names[..0]), wire.ptr) == [] && StreamOf(QueryFrames([]), wire.ptr) == []
  {
    assert QueryFrames(names[..0]) == [] && QueryFrames([]) == [];
  }

  // ----------------------------------------------------------------- the client

  /** A usable connection, on a machine of the pointer width the payloads are laid out for. */
  predicate Native(stream: Stream)
    reads stream
  {
    stream.Valid() && stream.wire.ptr == PTR
  }

  class Client {
    const stream: Stream

    constructor (stream: Stream)
      ensures this.stream == stream
    {
      this.stream := stream;
    }

    method Interfaces() returns (r: Result<seq<Interface>>)
      requires Native(stream)
      modifies stream
      ensures stream.Valid()
      ensures var (m, p) := MessageAt(stream.wire, old(stream.pos), GetInterfaces);
              && r == InterfacesFrom(m) && stream.pos == p
              && (m.Err? ==> r == Err(m.error))
      ensures stream.sent == old(stream.sent) + RequestBytes(GetInterfaces, [], stream.wire.ptr)
    {
      hide MessageAt, InterfacesIn, RequestBytes;
      var payload :- Request(stream, GetInterfaces, []);
      r := DecodeInterfaces(payload);
    }

    method Interface(ifname: bytes) returns (r: Result<InterfaceDetails<ChassisArc>>)
      requires Native(stream)
      modifies stream
      ensures stream.Valid()
      ensures var (m, p) := MessageAt(stream.wire, old(stream.pos), GetInterface);
              && MapOk(r, DetailsValue) == DetailsFrom(m) && stream.pos == p
              && (m.Err? ==> r == Err(m.error))
              && (r.Ok? ==> m.Ok? && HardwareIn(m.value).Ok? && SharesExactly(HardwareIn(m.value).value, r.value))
      ensures stream.sent == old(stream.sent) + RequestBytes(GetInterface, NameRequest(ifname), stream.wire.ptr)
    {
      hide MessageAt, HardwareIn, RequestBytes, BoundDetails, SharesExactly, MapDetails;
      var requestPayload := Encode.EncodeInterfaceNameRequest(ifname);
      var payload :- Request(stream, GetInterface, requestPayload);
      ghost var e;
      r, e := DecodeHardware(payload);
      if r.Ok? { DetailsByValue(HardwareIn(payload).value, e, r.value); }
    }

    method AllInterfaces() returns (r: Result<seq<InterfaceDetails<ChassisArc>>>)
      requires Native(stream)
      modifies stream
      ensures stream.Valid()
      ensures var b := BatchAt(stream.wire, old(stream.pos));
              && MapOk(r, DetailsValues) == b.result && stream.pos == b.pos
              && stream.sent == old(stream.sent) + StreamOf(b.requests, stream.wire.ptr)
      ensures r.Ok? ==> AllShareExactly(BatchPayloads(stream.wire, old(stream.pos)), r.value)
    {
      hide MessageAt, InterfacesIn, InterfacesFrom, DetailsFrom, RequestBytes, ReplyAt, Kept, MapDetails, FirstFatal,
        NameRequest, StreamOf, QueryFrames, Replies, PosAfter;
      ListFirst([], stream.wire.ptr);
      NothingYet(stream.wire, stream.pos, []);
      var out := [];
      var ifaces :- Interfaces();
      ghost var names := Names(ifaces);
      NothingYet(stream.wire, stream.pos, names);
      ghost var wire, p, sent := stream.wire, stream.pos, stream.sent;
      var i := 0;
      while i < |ifaces|
        invariant i <= |ifaces| && stream.Valid()
        invariant NoneFatal(Replies(wire, p, i))
        invariant stream.pos == PosAfter(wire, p, GetInterface, i)
        invariant DetailsValues(out) == Kept(Replies(wire, p, i))
        invariant AllShareExactly(Heard(wire, p, i), out)
        invariant stream.sent == sent + StreamOf(QueryFrames(names[..i]), wire.ptr)
      {
        OneMoreReply(wire, p, |names|, i);
        OneMoreRequest(names, i, wire.ptr);
        NextPosition(wire, p, i);
        ListFirst(names[..i + 1], wire.ptr);
        var details := Interface(ifaces[i].name);
        assert stream.sent == sent + StreamOf(QueryFrames(names[..i + 1]), wire.ptr);
        match details {
          case Ok(d) =>
            OneMoreHeard(wire, p, i, out, d);
            out := out + [d];
          case Err(RequestRejected) => NothingHeard(wire, p, i, out);
          case Err(e) => return Err(e);
        }
        i := i + 1;
      }
      assert names[..i] == names;
      ListFirst(names, wire.ptr);
      return Ok(out);
    }

    method SetPortDescription(ifname: bytes, description: bytes) returns (r: Result<()>)
      requires Native(stream)
      modifies stream
      ensures stream.Valid()
      ensures stream.sent == old(stream.sent)
                             + RequestBytes(SetPort, Encode.SetPortRequest(ifname, description), stream.wire.ptr)
      ensures var (m, p) := MessageAt(stream.wire, old(stream.pos), SetPort);
              && r == DoneFrom(m) && stream.pos == p
              && (r.Ok? <==> m.Ok?) && (r.Err? ==> r.error == m.error)
    {
      hide MessageAt, RequestBytes, Encode.SetPortRequest;
      var requestPayload := Encode.EncodeSetPortDescriptionRequest(ifname, description);
      var _ :- Request(stream, SetPort, requestPayload);
      return Ok(());
    }

    method Subscribe() returns (r: Result<Subscription>)
      requires Native(stream)
      modifies stream
      ensures stream.Valid()
      ensures var (m, p) := MessageAt(stream.wire, old(stream.pos), HmsgType.Subscribe);
              && stream.pos == p && (r.Ok? <==> m.Ok?)
              && (r.Ok? ==> r.value.stream == stream) && (r.Err? ==> r.error == m.error)
      ensures stream.sent == old(stream.sent) + RequestBytes(HmsgType.Subscribe, [], stream.wire.ptr)
    {
      hide MessageAt, RequestBytes;
      var _ :- Request(stream, HmsgType.Subscribe, []);
      var s := new Subscription(stream);
      return Ok(s);
    }
  }

  // ----------------------------------------------------------- the subscription

  function ItemValue(item: Option<Result<NeighborChange<ChassisArc>>>): Option<Result<Change>> {
    match item
    case None => None
    case Some(r) => Some(MapOk(r, ChangeValue))
  }

  class Subscription {
    const stream: Stream

    constructor (stream: Stream)
      ensures this.stream == stream
    {
      this.stream := stream;
    }

    method Next() returns (item: Option<Result<NeighborChange<ChassisArc>>>)
      requires Native(stream)
      modifies stream
      ensures stream.Valid() && stream.sent == old(stream.sent)
      ensures var (m, p) := MessageAt(stream.wire, old(stream.pos), Notification);
              && ItemValue(item) == ItemFrom(m) && stream.pos == p
              && (item == None <==> m == Err(Io(UnexpectedEof)))
              && (m.Err? && m.error != Io(UnexpectedEof) ==> item == Some(Err(m.error)))
    {
      hide MessageAt, ChangeIn, Walk, BoundChange, MapChange, Mirrors;
      var got := RecvNotification(stream);
      match got {
        case Ok(payload) =>
          var r, e := DecodeNeighborChange(payload);
          if r.Ok? { ChangeByValue(payload, e, r.value); }
          return Some(r);
        case Err(Io(UnexpectedEof)) => return None;
        case Err(e) => return Some(Err(e));
      }
    }
  }
}
