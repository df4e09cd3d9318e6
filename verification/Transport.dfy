/** The outer framing: a header of type and length, then that many payload bytes. */
module Transport {
  import opened Bytes
  import opened Errors
  import opened Model

  /** Pointer width of the machine; framing is the same for both. */
  type PtrSize = p: nat | p == 4 || p == 8 witness 8

  type I32 = v: int | -0x8000_0000 <= v < 0x8000_0000

  datatype HmsgType = NoMessage | GetInterfaces | GetInterface | SetPort | Subscribe | Notification

  function Code(ty: HmsgType): I32 {
    match ty
    case NoMessage => 0
    case GetInterfaces => 3
    case GetInterface => 6
    case SetPort => 8
    case Subscribe => 9
    case Notification => 10
  }

  /** Largest payload a frame may announce. */
  const HMSG_MAX_SIZE: nat := 0x8_0000

  function Unsigned32(v: I32): nat {
    if v < 0 then v + 0x1_0000_0000 else v
  }

  function LenOffset(ptr: PtrSize): nat {
    AlignUp(4, ptr)
  }

  function HeaderLen(ptr: PtrSize): nat {
    AlignUp(4, ptr) + ptr
  }

  /** On both widths the header is two pointers long. */
  lemma HeaderIsTwoPointers(ptr: PtrSize)
    ensures LenOffset(ptr) == ptr && HeaderLen(ptr) == 2 * ptr
  {
  }

  /** The header's bytes: type, zero padding, the low bytes of the length. */
  function HeaderBytes(code: I32, len: nat, ptr: PtrSize): (h: bytes)
    ensures |h| == HeaderLen(ptr)
  {
    ToLe(Unsigned32(code), 4) + seq(LenOffset(ptr) - 4, _ => 0) + ToLe(len, ptr)
  }

  method EncodeHeader(ty: HmsgType, payloadLen: nat, ptr: PtrSize) returns (buf: array<byte>)
    ensures fresh(buf) && buf[..] == HeaderBytes(Code(ty), payloadLen, ptr)
  {
    hide ToLe, AlignUp;
    buf := new byte[HeaderLen(ptr)](_ => 0);
    var code := ToLe(Unsigned32(Code(ty)), 4);
    forall i | 0 <= i < 4 { buf[i] := code[i]; }
    var lenOff := LenOffset(ptr);
    var len := ToLe(payloadLen, ptr);
    forall i | 0 <= i < ptr { buf[lenOff + i] := len[i]; }
  }

  function DecodeHeader(buf: bytes, ptr: PtrSize): (I32, nat)
    requires |buf| == HeaderLen(ptr)
  {
    (SignedCode(buf[0..4]), Le(buf[LenOffset(ptr)..LenOffset(ptr) + ptr]))
  }

  function SignedCode(b: bytes): I32
    requires |b| == 4
  {
    Widths();
    ToLeOfLe(b);
    Signed32(Le(b))
  }

  /** Every type and every length a `usize` can hold survives the header. */
  lemma HeaderRoundTrip(code: I32, len: nat, ptr: PtrSize)
    requires len < Pow256(ptr)
    ensures DecodeHeader(HeaderBytes(code, len, ptr), ptr) == (code, len)
  {
    hide ToLe, Le, AlignUp;
    var h := HeaderBytes(code, len, ptr);
    var c := ToLe(Unsigned32(code), 4);
    assert h[0..4] == c;
    assert h[LenOffset(ptr)..LenOffset(ptr) + ptr] == ToLe(len, ptr);
    Widths();
    LeOfToLe(Unsigned32(code), 4);
    LeOfToLe(len, ptr);
  }

  /** A type in four bytes, zero padding up to one pointer, a length in one more. */
  predicate IsHeader(h: bytes, code: bytes, len: bytes, ptr: PtrSize) {
    && |h| == 2 * ptr && |code| == 4 && |len| == ptr
    && h[..4] == code && h[ptr..] == len && forall i | 4 <= i < ptr :: h[i] == 0
  }

  /** The header byte by byte. */
  lemma HeaderLayout(code: I32, len: nat, ptr: PtrSize)
    ensures IsHeader(HeaderBytes(code, len, ptr), ToLe(Unsigned32(code), 4), ToLe(len, ptr), ptr)
  {
    hide ToLe, AlignUp, Unsigned32;
    HeaderIsTwoPointers(ptr);
  }

  /** Any header, its padding whatever it is: type from the first four bytes, length from the last pointer. */
  lemma AnyHeader(h: bytes, ptr: PtrSize)
    requires |h| == HeaderLen(ptr)
    ensures |h| == 2 * ptr && Unsigned32(DecodeHeader(h, ptr).0) == Le(h[..4]) && DecodeHeader(h, ptr).1 == Le(h[ptr..])
  {
    hide Le, Pow256, AlignUp;
    HeaderIsTwoPointers(ptr);
    Widths();
    ToLeOfLe(h[..4]);
    assert h[0..4] == h[..4] && h[ptr..ptr + ptr] == h[ptr..];
  }

  // ------------------------------------------------------------------ streams

  /** What a peer will send, the error a read past it meets, and the machine's pointer width. */
  datatype Wire = Wire(incoming: bytes, ending: IoKind, ptr: PtrSize)

  /** A connected socket: how far it has been read, and what was sent. */
  class Stream {
    const wire: Wire
    var pos: nat
    var sent: bytes

    constructor (wire: Wire)
      ensures this.wire == wire && pos == 0 && sent == [] && Valid()
    {
      this.wire := wire;
      pos, sent := 0, [];
    }

    predicate Valid()
      reads this
    {
      pos <= |wire.incoming|
    }

    /** A short read uses up what is there and reports how the stream ended. */
    method ReadExact(n: nat) returns (r: Result<bytes>)
      requires Valid()
      modifies this
      ensures Valid() && sent == old(sent)
      ensures (r, pos) == if old(pos) + n <= |wire.incoming|
                          then (Ok(wire.incoming[old(pos)..old(pos) + n]), old(pos) + n)
                          else (Err(Io(wire.ending)), |wire.incoming|)
    {
      if pos + n > |wire.incoming| {
        pos := |wire.incoming|;
        return Err(Io(wire.ending));
      }
      var b := wire.incoming[pos..pos + n];
      pos := pos + n;
      return Ok(b);
    }

    method WriteAll(b: bytes)
      modifies this
      ensures pos == old(pos) && sent == old(sent) + b
    {
      sent := sent + b;
    }
  }

  /** One frame as the daemon writes it; any type code. */
  datatype Frame = Frame(code: I32, payload: bytes)

  predicate InCap(f: Frame) {
    |f.payload| <= HMSG_MAX_SIZE
  }

  /** What a frame means to a reader that expects `expected`. */
  function Outcome(f: Frame, expected: HmsgType): Result<bytes> {
    if f.code == 0 then Err(RequestRejected)
    else if f.code != Code(expected) then
      Err(UnexpectedMessageType(Unsigned32(Code(expected)), Unsigned32(f.code)))
    else Ok(f.payload)
  }

  /** The protocol's numbers. */
  lemma Numbers()
    ensures Code(NoMessage) == 0 && Code(GetInterfaces) == 3 && Code(GetInterface) == 6 && Code(SetPort) == 8
    ensures Code(Subscribe) == 9 && Code(Notification) == 10
    ensures HMSG_MAX_SIZE == 512 * 1024
    ensures forall v: I32 :: Unsigned32(v) == v % 0x1_0000_0000
  {
  }

  /** A frame is a refusal exactly by type 0, accepted exactly by the type expected, and otherwise named as what it is. */
  lemma OutcomeMeaning(f: Frame, expected: HmsgType)
    requires expected != NoMessage
    ensures Outcome(f, expected) == Err(RequestRejected) <==> f.code == 0
    ensures Outcome(f, expected).Ok? <==> f.code == Code(expected)
    ensures Outcome(f, expected).Ok? ==> Outcome(f, expected).value == f.payload
    ensures f.code != 0 && f.code != Code(expected) ==>
              && Outcome(f, expected).Err? && Outcome(f, expected).error.UnexpectedMessageType?
              && Outcome(f, expected).error.expected == Code(expected) % 0x1_0000_0000
              && Outcome(f, expected).error.got == f.code % 0x1_0000_0000
  {
    Numbers();
  }

  /** The frame, error and new position found at `pos`. */
  function FrameAt(wire: Wire, pos: nat): (r: (Result<Frame>, nat))
    requires pos <= |wire.incoming|
    ensures pos <= r.1 <= |wire.incoming|
    ensures r.0.Ok? ==> InCap(r.0.value)
  {
    var body := pos + HeaderLen(wire.ptr);
    if body > |wire.incoming| then (Err(Io(wire.ending)), |wire.incoming|)
    else PayloadAt(DecodeHeader(wire.incoming[pos..body], wire.ptr), wire, body)
  }

  function PayloadAt(head: (I32, nat), wire: Wire, body: nat): (r: (Result<Frame>, nat))
    requires body <= |wire.incoming|
    ensures body <= r.1 <= |wire.incoming|
    ensures r.0.Ok? ==> InCap(r.0.value)
  {
    if head.1 > HMSG_MAX_SIZE then (Err(Protocol(OverCap)), body)
    else if body + head.1 > |wire.incoming| then (Err(Io(wire.ending)), |wire.incoming|)
    else (Ok(Frame(head.0, wire.incoming[body..body + head.1])), body + head.1)
  }

  /** Outcome and new position of reading one message at `pos`. */
  function MessageAt(wire: Wire, pos: nat, expected: HmsgType): (r: (Result<bytes>, nat))
    requires pos <= |wire.incoming|
    ensures pos <= r.1 <= |wire.incoming|
    ensures r.0.Ok? ==> |r.0.value| <= HMSG_MAX_SIZE
  {
    match FrameAt(wire, pos)
    case (Err(e), p) => (Err(e), p)
    case (Ok(f), p) => (Outcome(f, expected), p)
  }

  method ReadMessage(stream: Stream, expected: HmsgType) returns (r: Result<bytes>)
    requires stream.Valid()
    modifies stream
    ensures (r, stream.pos) == MessageAt(stream.wire, old(stream.pos), expected)
    ensures stream.sent == old(stream.sent) && stream.Valid()
  {
    hide DecodeHeader, AlignUp;
    var header :- stream.ReadExact(HeaderLen(stream.wire.ptr));
    var (gotTy, len) := DecodeHeader(header, stream.wire.ptr);
    if len > HMSG_MAX_SIZE { return Err(Protocol(OverCap)); }
    // The payload is drained before the type is judged, so the stream stays framed.
    var payload :- stream.ReadExact(len);
    if gotTy == Code(NoMessage) { return Err(RequestRejected); }
    if gotTy != Code(expected) {
      return Err(UnexpectedMessageType(Unsigned32(Code(expected)), Unsigned32(gotTy)));
    }
    return Ok(payload);
  }

  /** A request's bytes. */
  function RequestBytes(ty: HmsgType, payload: bytes, ptr: PtrSize): bytes {
    HeaderBytes(Code(ty), |payload|, ptr) + payload
  }

  method Request(stream: Stream, ty: HmsgType, payload: bytes) returns (r: Result<bytes>)
    requires stream.Valid()
    modifies stream
    ensures (r, stream.pos) == MessageAt(stream.wire, old(stream.pos), ty)
    ensures stream.sent == old(stream.sent) + RequestBytes(ty, payload, stream.wire.ptr)
    ensures stream.Valid()
  {
    hide MessageAt, HeaderBytes;
    var out := EncodeHeader(ty, |payload|, stream.wire.ptr);
    stream.WriteAll(out[..] + payload);
    r := ReadMessage(stream, ty);
  }

  method RecvNotification(stream: Stream) returns (r: Result<bytes>)
    requires stream.Valid()
    modifies stream
    ensures (r, stream.pos) == MessageAt(stream.wire, old(stream.pos), Notification)
    ensures stream.sent == old(stream.sent) && stream.Valid()
  {
    hide MessageAt;
    r := ReadMessage(stream, Notification);
  }

  // ------------------------------------------------------------------- frames

  predicate AllInCap(fs: seq<Frame>) {
    forall i | 0 <= i < |fs| :: InCap(fs[i])
  }

  function FrameBytes(f: Frame, ptr: PtrSize): bytes {
    HeaderBytes(f.code, |f.payload|, ptr) + f.payload
  }

  function StreamOf(fs: seq<Frame>, ptr: PtrSize): bytes {
    if fs == [] then [] else FrameBytes(fs[0], ptr) + StreamOf(fs[1..], ptr)
  }

  /** A complete in-cap frame is consumed exactly, whatever comes of it and whatever pads its header. */
  lemma PaddedFrameRead(before: bytes, h: bytes, f: Frame, after: bytes, ending: IoKind, ptr: PtrSize,
                        expected: HmsgType)
    requires InCap(f) && |h| == HeaderLen(ptr) && DecodeHeader(h, ptr) == (f.code, |f.payload|)
    ensures MessageAt(Wire(before + h + f.payload + after, ending, ptr), |before|, expected)
         == (Outcome(f, expected), |before| + |h| + |f.payload|)
  {
    hide DecodeHeader, AlignUp;
    var input, pos := before + h + f.payload + after, |before|;
    assert input[pos..pos + |h|] == h;
    assert input[pos + |h|..pos + |h| + |f.payload|] == f.payload;
  }

  lemma FrameRead(before: bytes, f: Frame, after: bytes, ending: IoKind, ptr: PtrSize, expected: HmsgType)
    requires InCap(f)
    ensures MessageAt(Wire(before + FrameBytes(f, ptr) + after, ending, ptr), |before|, expected)
         == (Outcome(f, expected), |before| + |FrameBytes(f, ptr)|)
  {
    hide HeaderBytes, DecodeHeader, AlignUp, MessageAt;
    var h := HeaderBytes(f.code, |f.payload|, ptr);
    Widths();
    HeaderRoundTrip(f.code, |f.payload|, ptr);
    PaddedFrameRead(before, h, f, after, ending, ptr, expected);
    assert before + FrameBytes(f, ptr) + after == before + h + f.payload + after;
  }

  /** A header that announces more than the cap is an error at once; what follows it is not read. */
  lemma OverCapRead(before: bytes, code: I32, len: nat, after: bytes, ending: IoKind, ptr: PtrSize, expected: HmsgType)
    requires HMSG_MAX_SIZE < len < Pow256(ptr)
    ensures MessageAt(Wire(before + HeaderBytes(code, len, ptr) + after, ending, ptr), |before|, expected)
         == (Err(Protocol(OverCap)), |before| + HeaderLen(ptr))
  {
    hide HeaderBytes, DecodeHeader, AlignUp;
    var input, h := before + HeaderBytes(code, len, ptr) + after, HeaderBytes(code, len, ptr);
    HeaderRoundTrip(code, len, ptr);
    assert input[|before|..|before| + |h|] == h;
  }

  /** A proper prefix of an in-cap frame at the end of the stream reads as the stream's ending. */
  lemma PartialFrame(before: bytes, f: Frame, q: bytes, ending: IoKind, ptr: PtrSize, expected: HmsgType)
    requires InCap(f) && q < FrameBytes(f, ptr)
    ensures MessageAt(Wire(before + q, ending, ptr), |before|, expected) == (Err(Io(ending)), |before + q|)
  {
    hide HeaderBytes, DecodeHeader, AlignUp;
    var input, h := before + q, HeaderBytes(f.code, |f.payload|, ptr);
    var pos := |before|;
    Widths();
    HeaderRoundTrip(f.code, |f.payload|, ptr);
    if |h| <= |q| {
      assert q[..|h|] == FrameBytes(f, ptr)[..|h|] == h;
      assert input[pos..pos + |h|] == q[..|h|];
    }
  }

  /** `n` successive reads, each with its own expectation. */
  function ReadMany(wire: Wire, pos: nat, expected: seq<HmsgType>): (r: (seq<Result<bytes>>, nat))
    requires pos <= |wire.incoming|
    decreases |expected|
  {
    if expected == [] then ([], pos)
    else
      var (first, p) := MessageAt(wire, pos, expected[0]);
      var (rest, q) := ReadMany(wire, p, expected[1..]);
      ([first] + rest, q)
  }

  /** The `k`-th frame's outcome for the `k`-th expectation. */
  function Outcomes(fs: seq<Frame>, expected: seq<HmsgType>): (r: seq<Result<bytes>>)
    requires |expected| <= |fs|
    ensures |r| == |expected|
  {
    seq(|expected|, k requires 0 <= k < |expected| => Outcome(fs[k], expected[k]))
  }

  /**
   Framing over whole runs: however the reads turn out, n of them consume exactly
   the first n frames, and the k-th read is answered by the k-th frame.
   */
  lemma {:induction false} FramingKept(before: bytes, fs: seq<Frame>, after: bytes, ending: IoKind,
                                       ptr: PtrSize, expected: seq<HmsgType>)
    requires AllInCap(fs) && |expected| <= |fs|
    ensures ReadMany(Wire(before + StreamOf(fs, ptr) + after, ending, ptr), |before|, expected)
         == (Outcomes(fs, expected), |before| + |StreamOf(fs[..|expected|], ptr)|)
    decreases |expected|
  {
    hide MessageAt, Outcome, FrameBytes;
    if expected == [] {
      assert fs[..0] == [];
    } else {
      var b, tail := FrameBytes(fs[0], ptr), StreamOf(fs[1..], ptr);
      var input := before + StreamOf(fs, ptr) + after;
      assert input == before + b + (tail + after);
      assert input == (before + b) + tail + after;
      FrameRead(before, fs[0], tail + after, ending, ptr, expected[0]);
      FramingKept(before + b, fs[1..], after, ending, ptr, expected[1..]);
      var n := |expected|;
      assert fs[..n][1..] == fs[1..][..n - 1] && fs[..n][0] == fs[0];
      assert Outcomes(fs, expected) == [Outcome(fs[0], expected[0])] + Outcomes(fs[1..], expected[1..]);
    }
  }

  lemma {:induction false} StreamSplit(fs: seq<Frame>, k: nat, ptr: PtrSize)
    requires k <= |fs|
    ensures StreamOf(fs, ptr) == StreamOf(fs[..k], ptr) + StreamOf(fs[k..], ptr)
  {
    hide FrameBytes;
    if k == 0 {
      assert fs[..0] == [] && fs[0..] == fs;
    } else {
      StreamSplit(fs[1..], k - 1, ptr);
      assert fs[..k][1..] == fs[1..][..k - 1] && fs[..k][0] == fs[0] && fs[1..][k - 1..] == fs[k..];
    }
  }

  /** Where the `k`-th frame starts when `start` bytes precede the first. */
  function Boundary(start: nat, fs: seq<Frame>, k: nat, ptr: PtrSize): nat
    requires k <= |fs|
  {
    start + |StreamOf(fs[..k], ptr)|
  }

  /** A read that starts at the `k`-th frame is answered by it and ends at the next. */
  lemma KthFrame(before: bytes, fs: seq<Frame>, after: bytes, ending: IoKind, ptr: PtrSize, k: nat, expected: HmsgType)
    requires k < |fs| && InCap(fs[k])
    ensures var wire := Wire(before + StreamOf(fs, ptr) + after, ending, ptr);
            && Boundary(|before|, fs, k, ptr) <= |wire.incoming|
            && MessageAt(wire, Boundary(|before|, fs, k, ptr), expected)
               == (Outcome(fs[k], expected), Boundary(|before|, fs, k + 1, ptr))
  {
    hide MessageAt, Outcome, FrameBytes, StreamOf;
    var done, f, rest := StreamOf(fs[..k], ptr), FrameBytes(fs[k], ptr), StreamOf(fs[k + 1..], ptr);
    StreamAround(fs, k, ptr);
    FrameRead(before + done, fs[k], rest + after, ending, ptr, expected);
    assert before + StreamOf(fs, ptr) + after == (before + done) + f + (rest + after);
  }

  lemma StreamOfOne(f: Frame, ptr: PtrSize)
    ensures StreamOf([f], ptr) == FrameBytes(f, ptr)
  {
    hide FrameBytes;
    assert [f][1..] == [];
    assert FrameBytes(f, ptr) + [] == FrameBytes(f, ptr);
  }

  lemma StreamAround(fs: seq<Frame>, k: nat, ptr: PtrSize)
    requires k < |fs|
    ensures StreamOf(fs, ptr) == StreamOf(fs[..k], ptr) + FrameBytes(fs[k], ptr) + StreamOf(fs[k + 1..], ptr)
    ensures StreamOf(fs[..k + 1], ptr) == StreamOf(fs[..k], ptr) + FrameBytes(fs[k], ptr)
  {
    hide FrameBytes, StreamOf;
    StreamSplit(fs, k + 1, ptr);
    StreamSplit(fs[..k + 1], k, ptr);
    assert fs[..k + 1][..k] == fs[..k] && fs[..k + 1][k..] == [fs[k]];
    StreamOfOne(fs[k], ptr);
  }
}
