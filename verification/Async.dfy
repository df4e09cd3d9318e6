/**
 The asynchronous client and subscription, awaits taken as ordinary calls. Their
 bodies are their own; their contracts are stated with the blocking client's
 specification functions.
 */
module Async {
  import opened Bytes
  import opened Errors
  import opened Model
  import opened Marshal
  import opened View
  import opened Decode
  import opened Values
  import opened Transport
  import opened Session

  // -------------------------------------------------------------- another shape

  /** `None` and errors change places: the iterator's item as the async call's result. */
  function Transposed<T>(item: Option<Result<T>>): Result<Option<T>> {
    match item
    case None => Ok(None)
    case Some(Ok(v)) => Ok(Some(v))
    case Some(Err(e)) => Err(e)
  }

  function OptionValue(o: Option<NeighborChange<ChassisArc>>): Option<Change> {
    match o
    case None => None
    case Some(c) => Some(ChangeValue(c))
  }

  // ----------------------------------------------------------------- transport

  method Receive(stream: Stream, expected: HmsgType) returns (r: Result<bytes>)
    requires stream.Valid()
    modifies stream
    ensures (r, stream.pos) == MessageAt(stream.wire, old(stream.pos), expected)
    ensures stream.sent == old(stream.sent) && stream.Valid()
  {
    hide DecodeHeader, AlignUp;
    var header :- stream.ReadExact(HeaderLen(stream.wire.ptr));
    var (gotTy, len) := DecodeHeader(header, stream.wire.ptr);
    if len > HMSG_MAX_SIZE { return Err(Protocol(OverCap)); }
    var payload :- stream.ReadExact(len);
    if gotTy == Code(NoMessage) { return Err(RequestRejected); }
    if gotTy != Code(expected) {
      return Err(UnexpectedMessageType(Unsigned32(Code(expected)), Unsigned32(gotTy)));
    }
    return Ok(payload);
  }

  method Send(stream: Stream, ty: HmsgType, payload: bytes) returns (r: Result<bytes>)
    requires stream.Valid()
    modifies stream
    ensures (r, stream.pos) == MessageAt(stream.wire, old(stream.pos), ty)
    ensures stream.sent == old(stream.sent) + RequestBytes(ty, payload, stream.wire.ptr)
    ensures stream.Valid()
  {
    hide MessageAt, HeaderBytes;
    var out := EncodeHeader(ty, |payload|, stream.wire.ptr);
    stream.WriteAll(out[..] + payload);
    r := Receive(stream, ty);
  }

  method AwaitNotification(stream: Stream) returns (r: Result<bytes>)
    requires stream.Valid()
    modifies stream
    ensures (r, stream.pos) == MessageAt(stream.wire, old(stream.pos), Notification)
    ensures stream.sent == old(stream.sent) && stream.Valid()
  {
    hide MessageAt;
    r := Receive(stream, Notification);
  }

  // ----------------------------------------------------------------- the client

  class AsyncClient {
    const stream: Stream

    constructor (stream: Stream)
      ensures this.stream == stream
    {
      this.stream := stream;
    }

    method Interfaces() returns (r: Result<seq<Interface>>)
      requires Native(stream)
      modifies stream
      ensures stream.Valid()
      ensures var (m, p) := MessageAt(stream.wire, old(stream.pos), GetInterfaces);
              && r == InterfacesFrom(m) && stream.pos == p
              && (m.Err? ==> r == Err(m.error))
      ensures stream.sent == old(stream.sent) + RequestBytes(GetInterfaces, [], stream.wire.ptr)
    {
      hide MessageAt, InterfacesIn, RequestBytes;
      var payload :- Send(stream, GetInterfaces, []);
      r := DecodeInterfaces(payload);
    }

    method Interface(ifname: bytes) returns (r: Result<InterfaceDetails<ChassisArc>>)
      requires Native(stream)
      modifies stream
      ensures stream.Valid()
      ensures var (m, p) := MessageAt(stream.wire, old(stream.pos), GetInterface);
              && MapOk(r, DetailsValue) == DetailsFrom(m) && stream.pos == p
              && (m.Err? ==> r == Err(m.error))
              && (r.Ok? ==> m.Ok? && HardwareIn(m.value).Ok? && SharesExactly(HardwareIn(m.value).value, r.value))
      ensures stream.sent == old(stream.sent) + RequestBytes(GetInterface, NameRequest(ifname), stream.wire.ptr)
    {
      hide MessageAt, HardwareIn, RequestBytes, BoundDetails, SharesExactly, MapDetails;
      var requestPayload := Encode.EncodeInterfaceNameRequest(ifname);
      var payload :- Send(stream, GetInterface, requestPayload);
      ghost var e;
      r, e := DecodeHardware(payload);
      if r.Ok? { DetailsByValue(HardwareIn(payload).value, e, r.value); }
    }

    method AllInterfaces() returns (r: Result<seq<InterfaceDetails<ChassisArc>>>)
      requires Native(stream)
      modifies stream
      ensures stream.Valid()
      ensures var b := BatchAt(stream.wire, old(stream.pos));
              && MapOk(r, DetailsValues) == b.result && stream.pos == b.pos
              && stream.sent == old(stream.sent) + StreamOf(b.requests, stream.wire.ptr)
      ensures r.Ok? ==> AllShareExactly(BatchPayloads(stream.wire, old(stream.pos)), r.value)
    {
      hide MessageAt, InterfacesIn, InterfacesFrom, DetailsFrom, RequestBytes, ReplyAt, Kept, MapDetails, FirstFatal,
        NameRequest, StreamOf, QueryFrames, Replies, PosAfter;
      ListFirst([], stream.wire.ptr);
      NothingYet(stream.wire, stream.pos, []);
      var out := [];
      var ifaces :- Interfaces();
      ghost var names := Names(ifaces);
      NothingYet(stream.wire, stream.pos, names);
      ghost var wire, p, sent := stream.wire, stream.pos, stream.sent;
      var i := 0;
      while i < |ifaces|
        invariant i <= |ifaces| && stream.Valid()
        invariant NoneFatal(Replies(wire, p, i))
        invariant stream.pos == PosAfter(wire, p, GetInterface, i)
        invariant DetailsValues(out) == Kept(Replies(wire, p, i))
        invariant AllShareExactly(Heard(wire, p, i), out)
        invariant stream.sent == sent + StreamOf(QueryFrames(names[..i]), wire.ptr)
      {
        OneMoreReply(wire, p, |names|, i);
        OneMoreRequest(names, i, wire.ptr);
        NextPosition(wire, p, i);
        ListFirst(names[..i + 1], wire.ptr);
        var details := Interface(ifaces[i].name);
        assert stream.sent == sent + StreamOf(QueryFrames(names[..i + 1]), wire.ptr);
        match details {
          case Ok(d) =>
            OneMoreHeard(wire, p, i, out, d);
            out := out + [d];
          case Err(RequestRejected) => NothingHeard(wire, p, i, out);
          case Err(e) => return Err(e);
        }
        i := i + 1;
      }
      assert names[..i] == names;
      ListFirst(names, wire.ptr);
      return Ok(out);
    }

    method SetPortDescription(ifname: bytes, description: bytes) returns (r: Result<()>)
      requires Native(stream)
      modifies stream
      ensures stream.Valid()
      ensures stream.sent == old(stream.sent)
                             + RequestBytes(SetPort, Encode.SetPortRequest(ifname, description), stream.wire.ptr)
      ensures var (m, p) := MessageAt(stream.wire, old(stream.pos), SetPort);
              && r == DoneFrom(m) && stream.pos == p
              && (r.Ok? <==> m.Ok?) && (r.Err? ==> r.error == m.error)
    {
      hide MessageAt, RequestBytes, Encode.SetPortRequest;
      var requestPayload := Encode.EncodeSetPortDescriptionRequest(ifname, description);
      var _ :- Send(stream, SetPort, requestPayload);
      return Ok(());
    }

    method Subscribe() returns (r: Result<AsyncSubscription>)
      requires Native(stream)
      modifies stream
      ensures stream.Valid()
      ensures var (m, p) := MessageAt(stream.wire, old(stream.pos), HmsgType.Subscribe);
              && stream.pos == p && (r.Ok? <==> m.Ok?)
              && (r.Ok? ==> r.value.stream == stream) && (r.Err? ==> r.error == m.error)
      ensures stream.sent == old(stream.sent) + RequestBytes(HmsgType.Subscribe, [], stream.wire.ptr)
    {
      hide MessageAt, RequestBytes;
      var _ :- Send(stream, HmsgType.Subscribe, []);
      var s := new AsyncSubscription(stream);
      return Ok(s);
    }
  }

  // ----------------------------------------------------------- the subscription

  class AsyncSubscription {
    const stream: Stream

    constructor (stream: Stream)
      ensures this.stream == stream
    {
      this.stream := stream;
    }

    /** The blocking iterator's step, transposed. */
    method NextChange() returns (r: Result<Option<NeighborChange<ChassisArc>>>)
      requires Native(stream)
      modifies stream
      ensures stream.Valid() && stream.sent == old(stream.sent)
      ensures var (m, p) := MessageAt(stream.wire, old(stream.pos), Notification);
              && MapOk(r, OptionValue) == Transposed(ItemFrom(m)) && stream.pos == p
              && (r == Ok(None) <==> m == Err(Io(UnexpectedEof)))
              && (m.Err? && m.error != Io(UnexpectedEof) ==> r == Err(m.error))
    {
      hide MessageAt, ChangeIn, Walk, BoundChange, MapChange, Mirrors;
      var got := AwaitNotification(stream);
      match got {
        case Ok(payload) =>
          var decoded, e := DecodeNeighborChange(payload);
          if decoded.Ok? { ChangeByValue(payload, e, decoded.value); }
          var change :- decoded;
          return Ok(Some(change));
        case Err(Io(UnexpectedEof)) => return Ok(None);
        case Err(e) => return Err(e);
      }
    }
  }
}
