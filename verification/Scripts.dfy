/** What the sessions do on every script of frames. */
module Scripts {
  import opened Bytes
  import opened Errors
  import opened Model
  import opened Marshal
  import opened View
  import opened Values
  import opened Transport
  import opened Session

  /** Successive reads of one kind go from frame to frame. */
  lemma {:induction false} FrameByFrame(before: bytes, fs: seq<Frame>, after: bytes, ending: IoKind,
                                        ptr: PtrSize, ty: HmsgType, j: nat, k: nat)
    requires AllInCap(fs) && j + k <= |fs|
    ensures var wire := Wire(before + StreamOf(fs, ptr) + after, ending, ptr);
            && Boundary(|before|, fs, j, ptr) <= |wire.incoming|
            && PosAfter(wire, Boundary(|before|, fs, j, ptr), ty, k) == Boundary(|before|, fs, j + k, ptr)
    decreases k
  {
    hide MessageAt, StreamOf, Outcome;
    StreamSplit(fs, j, ptr);
    if k > 0 {
      FrameByFrame(before, fs, after, ending, ptr, ty, j, k - 1);
      KthFrame(before, fs, after, ending, ptr, j + k - 1, ty);
    }
  }

  // ------------------------------------------------------------ the batch query

  /** Strictly ascending positions of all the successes, with their values. */
  ghost predicate Picks<T>(rs: seq<Result<T>>, at: seq<nat>, kept: seq<T>) {
    && |at| == |kept|
    && (forall j | 0 <= j < |at| :: at[j] < |rs| && rs[at[j]].Ok? && rs[at[j]].value == kept[j])
    && (forall i, j | 0 <= i < j < |at| :: at[i] < at[j])
    && (forall k | 0 <= k < |rs| && rs[k].Ok? :: k in at)
  }

  /** `Kept` is the order-preserving subsequence of the successes. */
  lemma {:induction false} KeptIsSubsequence<T>(rs: seq<Result<T>>) returns (at: seq<nat>)
    ensures Picks(rs, at, Kept(rs))
  {
    hide Picks;
    if rs == [] {
      at := [];
      PicksNone<T>();
    } else {
      var n := |rs| - 1;
      at := KeptIsSubsequence(rs[..n]);
      PicksOne(rs[..n], at, Kept(rs[..n]), rs[n]);
      assert rs[..n] + [rs[n]] == rs;
      if rs[n].Ok? { at := at + [n]; } else { assert Kept(rs[..n]) + [] == Kept(rs[..n]); }
    }
  }

  lemma PicksNone<T>()
    ensures Picks<T>([], [], [])
  {
  }

  lemma PicksOne<T>(rs: seq<Result<T>>, at: seq<nat>, kept: seq<T>, r: Result<T>)
    requires Picks(rs, at, kept)
    ensures r.Ok? ==> Picks(rs + [r], at + [|rs|], kept + [r.value])
    ensures r.Err? ==> Picks(rs + [r], at, kept)
  {
    var rs' := rs + [r];
    if r.Ok? {
      var at' := at + [|rs|];
      forall k | 0 <= k < |rs'| && rs'[k].Ok? ensures k in at' {
        if k < |rs| { assert k in at; } else { assert at'[|at|] == k; }
      }
    }
  }

  /** What `n` answering frames say, one per interface asked about. */
  function Answers(fs: seq<Frame>, n: nat): (rs: seq<Result<Details>>)
    requires n < |fs|
    ensures |rs| == n
  {
    seq(n, k requires 0 <= k < n => DetailsFrom(Outcome(fs[1 + k], GetInterface)))
  }

  /**
   The batch query on every script with a reply to each request. It succeeds exactly
   when no answer is fatal; then it has used the list's frame and one per interface,
   and returns the surviving answers in order. Otherwise the first fatal answer is
   returned and nothing after its frame is read.
   */
  lemma BatchOverScript(before: bytes, fs: seq<Frame>, after: bytes, ending: IoKind)
    requires AllInCap(fs) && |fs| > 0
    requires var listed := InterfacesFrom(Outcome(fs[0], GetInterfaces)); listed.Ok? ==> |listed.value| < |fs|
    ensures var wire := Wire(before + StreamOf(fs, PTR) + after, ending, PTR);
            var b := BatchAt(wire, |before|);
            var listed := InterfacesFrom(Outcome(fs[0], GetInterfaces));
            && (listed.Err? ==> b == Run(Err(listed.error), Boundary(|before|, fs, 1, PTR), BatchRequests([])))
            && (listed.Ok? ==>
                  var names := Names(listed.value);
                  var rs := Answers(fs, |names|);
                  var k := FirstFatal(rs);
                  && (b.result.Ok? <==> NoneFatal(rs))
                  && (b.result.Ok? ==>
                        b == Run(Ok(Kept(rs)), Boundary(|before|, fs, 1 + |names|, PTR), BatchRequests(names)))
                  && (b.result.Err? ==>
                        && k < |names|
                        && b == Run(Err(rs[k].error), Boundary(|before|, fs, 2 + k, PTR), BatchRequests(names[..k + 1]))))
  {
    hide MessageAt, InterfacesFrom, DetailsFrom, Outcome, NameRequest, StreamOf, Kept, FirstFatal, Replies,
      Answers, PosAfter, Boundary, NoneFatal, BatchRequests;
    var wire := Wire(before + StreamOf(fs, PTR) + after, ending, PTR);
    NoFramesYet(|before|, fs, PTR);
    KthFrame(before, fs, after, ending, PTR, 0, GetInterfaces);
    var listed := InterfacesFrom(Outcome(fs[0], GetInterfaces));
    if listed.Ok? {
      var n, p := |listed.value|, Boundary(|before|, fs, 1, PTR);
      AnswersAre(before, fs, after, ending, n);
      var rs := Answers(fs, n);
      var k := FirstFatal(rs);
      FirstOrNone(rs);
      FrameByFrame(before, fs, after, ending, PTR, GetInterface, 1, n);
      if k < n { FrameByFrame(before, fs, after, ending, PTR, GetInterface, 1, k + 1); }
    }
  }

  /**
   The daemon goes away in the middle of a batch: fewer replies than interfaces,
   and the last one perhaps cut short. A fatal answer still comes first; without
   one the stream's ending is the result, and everything that arrived has been read.
   */
  lemma BatchRunsOut(before: bytes, fs: seq<Frame>, g: Frame, q: bytes, ending: IoKind)
    requires AllInCap(fs) && InCap(g) && q < FrameBytes(g, PTR)
    ensures var wire := Wire(before + StreamOf(fs, PTR) + q, ending, PTR);
            var b := BatchAt(wire, |before|);
            && (fs == [] ==> b == Run(Err(Io(ending)), |wire.incoming|, BatchRequests([])))
            && (fs != [] ==>
                  var listed := InterfacesFrom(Outcome(fs[0], GetInterfaces));
                  listed.Ok? && |listed.value| >= |fs| ==>
                    var names := Names(listed.value);
                    var rs := Answers(fs, |fs| - 1);
                    var k := FirstFatal(rs);
                    if NoneFatal(rs) then b == Run(Err(Io(ending)), |wire.incoming|, BatchRequests(names[..|fs|]))
                    else
                      && k < |rs|
                      && b == Run(Err(rs[k].error), Boundary(|before|, fs, 2 + k, PTR), BatchRequests(names[..k + 1])))
  {
    hide MessageAt, InterfacesFrom, DetailsFrom, Outcome, NameRequest, StreamOf, Kept, FirstFatal, Replies,
      Answers, PosAfter, Boundary, NoneFatal, BatchRequests, FrameBytes;
    var wire := Wire(before + StreamOf(fs, PTR) + q, ending, PTR);
    NoFramesYet(|before|, fs, PTR);
    if fs == [] {
      StreamEnds(before, fs, g, q, ending, GetInterfaces);
      ListCut(ending);
    } else {
      KthFrame(before, fs, q, ending, PTR, 0, GetInterfaces);
      var listed := InterfacesFrom(Outcome(fs[0], GetInterfaces));
      if listed.Ok? && |listed.value| >= |fs| {
        AnswersAre(before, fs, q, ending, |fs| - 1);
        CutShort(before, fs, g, q, ending, |listed.value|);
        FirstOrNone(Answers(fs, |fs| - 1));
        var k := FirstFatal(Answers(fs, |fs| - 1));
        if k < |fs| - 1 { FrameByFrame(before, fs, q, ending, PTR, GetInterface, 1, k + 1); }
      }
    }
  }

  lemma ListCut(ending: IoKind)
    ensures InterfacesFrom(Err(Io(ending))) == Err(Io(ending))
  {
  }

  /** The first fatal reply when the frames run out: the frames' own, or else the stream's ending. */
  lemma CutShort(before: bytes, fs: seq<Frame>, g: Frame, q: bytes, ending: IoKind, n: nat)
    requires AllInCap(fs) && InCap(g) && q < FrameBytes(g, PTR) && 0 < |fs| <= n
    ensures var wire := Wire(before + StreamOf(fs, PTR) + q, ending, PTR);
            var p := Boundary(|before|, fs, 1, PTR);
            && p <= |wire.incoming|
            && var rs, all := Answers(fs, |fs| - 1), Replies(wire, p, n);
               var k := FirstFatal(all);
               && k < n
               && (NoneFatal(rs) ==>
                     k == |fs| - 1 && all[k] == Err(Io(ending)) && PosAfter(wire, p, GetInterface, k + 1) == |wire.incoming|)
               && (!NoneFatal(rs) ==> k == FirstFatal(rs) < |rs| && all[k] == rs[k])
  {
    hide MessageAt, Outcome, StreamOf, Boundary, FrameBytes, FirstFatal, DetailsIn;
    var wire, m := Wire(before + StreamOf(fs, PTR) + q, ending, PTR), |fs| - 1;
    var p := Boundary(|before|, fs, 1, PTR);
    AnswersAre(before, fs, q, ending, m);
    FrameByFrame(before, fs, q, ending, PTR, GetInterface, 1, m);
    StreamEnds(before, fs, g, q, ending, GetInterface);
    NextPosition(wire, p, m);
    var rs, all := Answers(fs, m), Replies(wire, p, n);
    assert Replies(wire, p, m) == all[..m];
    if NoneFatal(rs) {
      FirstIs(all, m);
    } else {
      FirstOrNone(rs);
      var k := FirstFatal(rs);
      assert rs[..k] == all[..k];
      FirstIs(all, k);
    }
  }

  lemma NoFramesYet(start: nat, fs: seq<Frame>, ptr: PtrSize)
    ensures Boundary(start, fs, 0, ptr) == start
  {
    assert fs[..0] == [];
  }

  lemma FirstOrNone<T>(rs: seq<Result<T>>)
    ensures FirstFatal(rs) == |rs| <==> NoneFatal(rs)
  {
    hide FirstFatal;
    if FirstFatal(rs) == |rs| { assert rs[..|rs|] == rs; }
  }

  /** Query `k` is answered by frame `1 + k`. */
  lemma AnswersAre(before: bytes, fs: seq<Frame>, after: bytes, ending: IoKind, n: nat)
    requires AllInCap(fs) && n < |fs|
    ensures var wire := Wire(before + StreamOf(fs, PTR) + after, ending, PTR);
            && Boundary(|before|, fs, 1, PTR) <= |wire.incoming|
            && Replies(wire, Boundary(|before|, fs, 1, PTR), n) == Answers(fs, n)
  {
    hide MessageAt, DetailsFrom, Outcome, StreamOf;
    var wire := Wire(before + StreamOf(fs, PTR) + after, ending, PTR);
    FrameByFrame(before, fs, after, ending, PTR, GetInterface, 1, 0);
    var p := Boundary(|before|, fs, 1, PTR);
    forall k | 0 <= k < n ensures ReplyAt(wire, p, k) == DetailsFrom(Outcome(fs[1 + k], GetInterface)) {
      FrameByFrame(before, fs, after, ending, PTR, GetInterface, 1, k);
      KthFrame(before, fs, after, ending, PTR, 1 + k, GetInterface);
    }
  }

  /** An answer is skipped exactly when its frame is the daemon's refusal. */
  lemma RejectionIsTypeNone(f: Frame)
    ensures DetailsFrom(Outcome(f, GetInterface)) == Err(RequestRejected) <==> f.code == 0
  {
  }

  /**
   What ends a batch, decided by the reply: it goes on past a refusal and past a
   payload that decodes, and past nothing else, be it another type, a payload that
   does not decode, an announcement above the cap or a broken stream.
   */
  lemma FatalReply(m: Result<bytes>)
    ensures Fatal(DetailsFrom(m)) <==> m != Err(RequestRejected) && !(m.Ok? && HardwareIn(m.value).Ok?)
  {
    hide HardwareAs;
    FirstErrorIsProtocol(m);
  }

  /** The same by the frame's type. */
  lemma FatalFrame(f: Frame)
    ensures Fatal(DetailsFrom(Outcome(f, GetInterface)))
       <==> f.code != 0 && !(f.code == 6 && HardwareIn(f.payload).Ok?)
  {
    hide HardwareIn, DetailsFrom;
    Numbers();
    OutcomeMeaning(f, GetInterface);
    FatalReply(Outcome(f, GetInterface));
  }

  /** A payload that does not decode is never taken for a refusal. */
  lemma FirstErrorIsProtocol(m: Result<bytes>)
    ensures m.Ok? && HardwareIn(m.value).Err? ==> HardwareIn(m.value).error.Protocol?
  {
    hide Walk, HardwareOf, Wf;
  }

  /** SET_PORT succeeds exactly on its own reply, and is refused exactly by type 0. */
  lemma SetPortAnswer(f: Frame)
    ensures DoneFrom(Outcome(f, SetPort)).Ok? <==> f.code == 8
    ensures DoneFrom(Outcome(f, SetPort)) == Err(RequestRejected) <==> f.code == 0
  {
    Numbers();
  }

  /** A refused list is an error, not an empty list. */
  lemma ListRefused(f: Frame)
    ensures InterfacesFrom(Outcome(f, GetInterfaces)) == Err(RequestRejected) <==> f.code == 0
  {
  }

  /** The end of `n` complete frames, if they are all there. */
  function FramesEnd(wire: Wire, pos: nat, n: nat): (r: Option<nat>)
    requires pos <= |wire.incoming|
    ensures r.Some? ==> r.value <= |wire.incoming|
  {
    if n == 0 then Some(pos)
    else
      match FramesEnd(wire, pos, n - 1)
      case None => None
      case Some(p) => if FrameAt(wire, p).0.Ok? then Some(FrameAt(wire, p).1) else None
  }

  /** On any stream whatever, a batch that succeeds has used exactly one frame per request it made. */
  lemma SuccessUsesWholeFrames(wire: Wire, pos: nat)
    requires pos <= |wire.incoming|
    ensures var b := BatchAt(wire, pos);
            b.result.Ok? ==> FramesEnd(wire, pos, |b.requests|) == Some(b.pos)
  {
    hide FrameAt, InterfacesIn, DetailsIn, Kept, FirstFatal, NameRequest, Replies, Outcome;
    var b := BatchAt(wire, pos);
    if b.result.Ok? {
      var (listed, p) := MessageAt(wire, pos, GetInterfaces);
      assert FramesEnd(wire, pos, 0) == Some(pos);
      assert FramesEnd(wire, pos, 1) == Some(p);
      var n := |InterfacesFrom(listed).value|;
      FirstOrNone(Replies(wire, p, n));
      RepliesAreFrames(wire, pos, p, n);
    }
  }

  lemma {:induction false} RepliesAreFrames(wire: Wire, pos: nat, p: nat, n: nat)
    requires pos <= |wire.incoming| && p <= |wire.incoming|
    requires FramesEnd(wire, pos, 1) == Some(p) && NoneFatal(Replies(wire, p, n))
    ensures FramesEnd(wire, pos, 1 + n) == Some(PosAfter(wire, p, GetInterface, n))
  {
    hide MessageAt, FrameAt, DetailsIn, ReplyAt;
    if n > 0 {
      var rs := Replies(wire, p, n);
      var fewer := Replies(wire, p, n - 1);
      forall k | 0 <= k < |fewer| ensures !Fatal(fewer[k]) { assert !Fatal(rs[k]) && fewer[k] == rs[k]; }
      RepliesAreFrames(wire, pos, p, n - 1);
      assert !Fatal(rs[n - 1]);
      NextPosition(wire, p, n - 1);
      AnswerIsFrame(wire, PosAfter(wire, p, GetInterface, n - 1), GetInterface);
      assert FramesEnd(wire, pos, 1 + n - 1).Some?;
    }
  }

  /** Only a complete frame is accepted or refused. */
  lemma AnswerIsFrame(wire: Wire, pos: nat, ty: HmsgType)
    requires pos <= |wire.incoming|
    ensures var (m, p) := MessageAt(wire, pos, ty);
            !Fatal(m) ==> FrameAt(wire, pos).0.Ok? && FrameAt(wire, pos).1 == p
  {
    hide DecodeHeader, AlignUp;
  }

  /**
   The daemon's end of a batch: first the list is asked for, then the `k`-th query
   asks about the `k`-th interface of the list by its exact name.
   */
  lemma QueriesAsk(xs: seq<Interface>, ending: IoKind, k: nat)
    requires AllInCap(BatchRequests(Names(xs))) && k < |xs|
    ensures var fs := BatchRequests(Names(xs));
            && |fs| == 1 + |xs|
            && Boundary(0, fs, k + 1, PTR) <= |StreamOf(fs, PTR)|
            && MessageAt(Wire(StreamOf(fs, PTR), ending, PTR), 0, GetInterfaces) == (Ok([]), Boundary(0, fs, 1, PTR))
            && var (m, p) := MessageAt(Wire(StreamOf(fs, PTR), ending, PTR), Boundary(0, fs, k + 1, PTR), GetInterface);
            && p == Boundary(0, fs, k + 2, PTR)
            && m.Ok?
            && var w := Walk(CString, m.value, 0, map[]);
               w.Got? && w.pos == |m.value| && TextOf(Child(w.value.item)) == Some(xs[k].name)
  {
    hide MessageAt, StreamOf, Walk, TextOf, Payload.Message;
    var fs := BatchRequests(Names(xs));
    assert [] + StreamOf(fs, PTR) + [] == StreamOf(fs, PTR);
    NoFramesYet(0, fs, PTR);
    KthFrame([], fs, [], ending, PTR, 0, GetInterfaces);
    KthFrame([], fs, [], ending, PTR, k + 1, GetInterface);
    assert InCap(fs[k + 1]);
    Encode.NameRequestLength(xs[k].name);
    Encode.NameRequestInverts(xs[k].name);
  }

  // ----------------------------------------------------------- the subscription

  /** Position before, and outcome of, the `k`-th call of the iterator. */
  function ItemAt(wire: Wire, pos: nat, k: nat): Option<Result<Change>>
    requires pos <= |wire.incoming|
  {
    ItemFrom(MessageAt(wire, PosAfter(wire, pos, Notification, k), Notification).0)
  }

  /** A complete frame is never the end of a subscription. */
  lemma FrameIsAnItem(f: Frame)
    ensures ItemFrom(Outcome(f, Notification)).Some?
  {
  }

  /**
   Conservation: n whole frames and a proper prefix of another give n items in
   order, each its own frame's. After that, where the stream ended in order,
   nothing; where it broke, that error, every time.
   */
  lemma {:induction false} SubscriptionConserves(before: bytes, fs: seq<Frame>, g: Frame, q: bytes, ending: IoKind, k: nat)
    requires AllInCap(fs) && InCap(g) && q < FrameBytes(g, PTR)
    ensures var wire := Wire(before + StreamOf(fs, PTR) + q, ending, PTR);
            && (k < |fs| ==> ItemAt(wire, |before|, k) == ItemFrom(Outcome(fs[k], Notification)))
            && (k < |fs| ==> ItemAt(wire, |before|, k).Some?)
            && (k >= |fs| ==> ItemAt(wire, |before|, k) == if ending.UnexpectedEof? then None else Some(Err(Io(ending))))
            && (k > |fs| ==> PosAfter(wire, |before|, Notification, k) == |wire.incoming|)
    decreases k
  {
    hide MessageAt, StreamOf, Outcome, FrameBytes, NoticeIn;
    var wire := Wire(before + StreamOf(fs, PTR) + q, ending, PTR);
    NoFramesYet(|before|, fs, PTR);
    if k <= |fs| { FrameByFrame(before, fs, q, ending, PTR, Notification, 0, k); }
    if k < |fs| {
      KthFrame(before, fs, q, ending, PTR, k, Notification);
      FrameIsAnItem(fs[k]);
    } else if k == |fs| {
      StreamEnds(before, fs, g, q, ending, Notification);
    } else {
      SubscriptionConserves(before, fs, g, q, ending, k - 1);
      if k == |fs| + 1 {
        FrameByFrame(before, fs, q, ending, PTR, Notification, 0, |fs|);
        StreamEnds(before, fs, g, q, ending, Notification);
      }
      Exhausted(wire, Notification);
    }
  }

  /** An announcement above the cap is an item too. */
  lemma OverCapIsAnItem(before: bytes, code: I32, len: nat, after: bytes, ending: IoKind)
    requires HMSG_MAX_SIZE < len < WORD_LIMIT
    ensures var wire := Wire(before + HeaderBytes(code, len, PTR) + after, ending, PTR);
            ItemAt(wire, |before|, 0) == Some(Err(Protocol(OverCap)))
  {
    hide MessageAt, HeaderBytes;
    WordLimit();
    OverCapRead(before, code, len, after, ending, PTR, Notification);
  }

  /** After the last whole frame, a proper prefix of another reads as the stream's ending. */
  lemma StreamEnds(before: bytes, fs: seq<Frame>, g: Frame, q: bytes, ending: IoKind, ty: HmsgType)
    requires InCap(g) && q < FrameBytes(g, PTR)
    ensures var wire := Wire(before + StreamOf(fs, PTR) + q, ending, PTR);
            && Boundary(|before|, fs, |fs|, PTR) <= |wire.incoming|
            && MessageAt(wire, Boundary(|before|, fs, |fs|, PTR), ty) == (Err(Io(ending)), |wire.incoming|)
  {
    hide MessageAt, StreamOf, FrameBytes;
    assert fs[..|fs|] == fs;
    PartialFrame(before + StreamOf(fs, PTR), g, q, ending, PTR, ty);
  }

  lemma Exhausted(wire: Wire, ty: HmsgType)
    ensures MessageAt(wire, |wire.incoming|, ty) == (Err(Io(wire.ending)), |wire.incoming|)
  {
    hide AlignUp, DecodeHeader, PayloadAt;
    HeaderIsTwoPointers(wire.ptr);
  }
}
