/** From the daemon's records to the caller's values, through the codec, the framing and the session. */
module EndToEnd {
  import opened Bytes
  import opened Errors
  import opened Model
  import opened Marshal
  import opened View
  import opened Values
  import opened Lists
  import opened Records
  import opened Sender
  import opened Fallback
  import opened Transport
  import opened Session
  import opened Scripts
  import opened Payload

  /** The daemon's answer about one interface: what it holds, in the layout it was built with, or a refusal. */
  datatype Answer = Refused | Holds(layout: Layout, source: Source, who: map<nat, Chassis>)

  /** The bytes of an answer, when there are any. */
  function AnswerBytes(a: Answer): bytes
    requires a.Holds? ==> SourceFits(a.source) && OneChassisPerId(a.source.details, a.who)
  {
    match a
    case Refused => []
    case Holds(l, s, who) =>
      SentRoundTrip(l, s, who);
      SentMessage(l, s)
  }

  /** What the daemon can say in one frame, and be understood. */
  predicate Sayable(a: Answer) {
    a.Holds? ==>
      && SourceFits(a.source) && OneChassisPerId(a.source.details, a.who)
      && |AnswerBytes(a)| <= HMSG_MAX_SIZE
      && (a.layout.Legacy? || !Misleading(a.source, AnswerBytes(a)))
  }

  function AnswerFrame(a: Answer): Frame
    requires Sayable(a)
  {
    Frame(if a.Refused? then Code(NoMessage) else Code(GetInterface), AnswerBytes(a))
  }

  predicate AllSayable(answers: seq<Answer>) {
    forall k | 0 <= k < |answers| :: Sayable(answers[k])
  }

  function AnswerFrames(answers: seq<Answer>): (fs: seq<Frame>)
    requires AllSayable(answers)
    ensures |fs| == |answers|
  {
    seq(|answers|, k requires 0 <= k < |answers| => AnswerFrame(answers[k]))
  }

  /** What was said, by value and in order, refusals left out. */
  function SaidDetails(answers: seq<Answer>): seq<Details> {
    if answers == [] then []
    else
      var last := answers[|answers| - 1];
      SaidDetails(answers[..|answers| - 1]) + if last.Holds? then [MapDetails(last.source.details, Said)] else []
  }

  lemma AnswerHeard(a: Answer)
    requires Sayable(a)
    ensures InCap(AnswerFrame(a))
    ensures DetailsFrom(Outcome(AnswerFrame(a), GetInterface))
         == if a.Refused? then Err(RequestRejected) else Ok(MapDetails(a.source.details, Said))
  {
    hide HardwareIn, SentMessage, SourceFits, OneChassisPerId, HardwareTree, Sent, Wf, Misleading, Message;
    if a.Holds? { SentDecodes(a.layout, a.source, a.who); }
  }

  lemma {:induction false} KeptIsSaid(answers: seq<Answer>, rs: seq<Result<Details>>)
    requires |rs| == |answers|
    requires forall k | 0 <= k < |answers| ::
               rs[k] == if answers[k].Refused? then Err(RequestRejected) else Ok(MapDetails(answers[k].source.details, Said))
    ensures NoneFatal(rs) && Kept(rs) == SaidDetails(answers)
    decreases |answers|
  {
    hide MapDetails;
    if answers != [] { KeptIsSaid(answers[..|answers| - 1], rs[..|answers| - 1]); }
  }

  /**
   A whole batch query. Whatever interfaces the daemon lists, and whichever of
   them it then refuses, the caller gets exactly the records of the others, in
   list order, and the stream has been read to the end.
   */
  lemma BatchDelivers(xs: seq<Interface>, answers: seq<Answer>, ending: IoKind)
    requires |answers| == |xs| && AllSayable(answers) && |ListMessage(xs)| <= HMSG_MAX_SIZE
    ensures var input := StreamOf([Frame(Code(GetInterfaces), ListMessage(xs))] + AnswerFrames(answers), PTR);
            var b := BatchAt(Wire(input, ending, PTR), 0);
            b == Run(Ok(SaidDetails(answers)), |input|, BatchRequests(Names(xs)))
  {
    hide InterfacesIn, Sayable, AnswerFrame, DetailsFrom, BatchAt, ListMessage, StreamOf, Kept, NoneFatal, SaidDetails,
      BatchRequests;
    var fs := [Frame(Code(GetInterfaces), ListMessage(xs))] + AnswerFrames(answers);
    ListHeard(xs);
    forall k | 0 <= k < |fs| ensures InCap(fs[k]) { if k > 0 { AnswerHeard(answers[k - 1]); } }
    BatchOverScript([], fs, [], ending);
    assert [] + StreamOf(fs, PTR) + [] == StreamOf(fs, PTR);
    var rs := Answers(fs, |xs|);
    forall k | 0 <= k < |answers|
      ensures rs[k] == if answers[k].Refused? then Err(RequestRejected) else Ok(MapDetails(answers[k].source.details, Said))
    {
      AnswerHeard(answers[k]);
    }
    KeptIsSaid(answers, rs);
    assert fs[..1 + |xs|] == fs;
  }

  lemma ListHeard(xs: seq<Interface>)
    requires |ListMessage(xs)| <= HMSG_MAX_SIZE
    ensures InterfacesFrom(Outcome(Frame(Code(GetInterfaces), ListMessage(xs)), GetInterfaces)) == Ok(xs)
  {
    hide InterfacesIn, ListMessage;
    ListRoundTrip(xs, []);
    assert ListMessage(xs) + [] == ListMessage(xs);
  }

  /** A change as the daemon announces it. */
  datatype Announcement = Announcement(change: NeighborChange<ChassisUse>, extras: Extras)

  function NoticeBytes(a: Announcement): bytes
    requires ChangeFits(a.change, a.extras)
  {
    NoticeRoundTrip(a.change, a.extras, []);
    Message(ChangeNotice, ChangeTree(a.change, a.extras))
  }

  predicate Announceable(a: Announcement) {
    ChangeFits(a.change, a.extras) && |NoticeBytes(a)| <= HMSG_MAX_SIZE
  }

  function NoticeFrame(a: Announcement): Frame
    requires Announceable(a)
  {
    Frame(Code(Notification), NoticeBytes(a))
  }

  predicate AllAnnounceable(news: seq<Announcement>) {
    forall k | 0 <= k < |news| :: Announceable(news[k])
  }

  function NoticeFrames(news: seq<Announcement>): (fs: seq<Frame>)
    requires AllAnnounceable(news)
    ensures |fs| == |news|
  {
    seq(|news|, k requires 0 <= k < |news| => NoticeFrame(news[k]))
  }

  /**
   A whole subscription. However many changes are announced before the daemon goes
   away, in the middle of a frame or not, the iterator yields exactly those, in
   order, and then ends for good; or, where the connection broke, yields that error.
   */
  lemma FeedDelivers(news: seq<Announcement>, g: Frame, q: bytes, ending: IoKind, k: nat)
    requires AllAnnounceable(news)
    requires InCap(g) && q < FrameBytes(g, PTR)
    ensures var item := ItemAt(Wire(StreamOf(NoticeFrames(news), PTR) + q, ending, PTR), 0, k);
            item == if k < |news| then Some(Ok(MapChange(news[k].change, Said)))
                    else if ending.UnexpectedEof? then None
                    else Some(Err(Io(ending)))
  {
    hide StreamOf, NoticeFrame, ItemAt, Announceable, ItemFrom, FrameBytes;
    var fs := NoticeFrames(news);
    forall j | 0 <= j < |fs| ensures InCap(fs[j]) { NoticeHeard(news[j]); }
    SubscriptionConserves([], fs, g, q, ending, k);
    assert [] + StreamOf(fs, PTR) + q == StreamOf(fs, PTR) + q;
    if k < |news| { NoticeHeard(news[k]); }
  }

  lemma NoticeHeard(a: Announcement)
    requires Announceable(a)
    ensures InCap(NoticeFrame(a))
    ensures ItemFrom(Outcome(NoticeFrame(a), Notification)) == Some(Ok(MapChange(a.change, Said)))
  {
    hide ChangeFits, ChangeIn, ChangeTree, Message, Wf;
    NoticeRoundTrip(a.change, a.extras, []);
    assert NoticeBytes(a) + [] == NoticeBytes(a);
  }
}
