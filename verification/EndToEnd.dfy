/** A sender and a receiver joined by a byte stream: whatever the order of preparation, the partial writes,
  * the cuts into buffers and the order in which these complete, bodies come out in the order submitted. */
module EndToEnd {
  import opened LittleEndian
  import opened Wire
  import opened SortedList
  import opened Buffers
  import opened Receiver
  import opened Streams
  import S = SendRun
  import R = ReceiveRun

  datatype Sys = Sys(tx: S.Ss, rx: R.Rs)

  datatype Event = Send(e: S.Event) | Arrive(k: nat) | Complete(num: nat, memory: nat)

  /** Arrive: RecvData reads the next k bytes of the stream into a buffer. */
  function Step(s: Sys, e: Event): Sys {
    match e
    case Send(e) => s.(tx := S.Step(s.tx, e))
    case Arrive(k) =>
      var read := |Concat(s.rx.chunks)|;
      if read + k <= |s.tx.wire| then s.(rx := R.Step(s.rx, R.Read(s.tx.wire[read..read + k]))) else s
    case Complete(num, memory) => s.(rx := R.Step(s.rx, R.Complete(num, memory)))
  }

  function Run(es: seq<Event>): Sys {
    if |es| == 0 then Sys(S.INIT, R.INIT) else Step(Run(es[..|es| - 1]), es[|es| - 1])
  }

  ghost predicate Inv(s: Sys) {
    S.Inv(s.tx) && R.Inv(s.rx) && Concat(s.rx.chunks) <= s.tx.wire
  }

  lemma {:induction false} RunInv(es: seq<Event>)
    ensures Inv(Run(es))
  {
    hide S.Inv, R.Inv;
    if |es| == 0 {
      S.InitInv();
      R.InitInv();
    } else {
      RunInv(es[..|es| - 1]);
      StepInv(Run(es[..|es| - 1]), es[|es| - 1]);
    }
  }

  lemma {:induction false} StepInv(s: Sys, e: Event)
    requires Inv(s)
    ensures Inv(Step(s, e))
  {
    hide S.Inv, R.Inv, Receiver.Rx.Push, Receiver.Rx.Unpack;
    match e {
      case Send(e) =>
        S.StepInv(s.tx, e);
        WireGrows(s.tx, e);
      case Arrive(k) =>
        var read := |Concat(s.rx.chunks)|;
        if read + k <= |s.tx.wire| {
          var chunk := s.tx.wire[read..read + k];
          if s.rx.CanRead(chunk) {
            R.ReadInv(s.rx, chunk);
            ConcatSplits(s.rx.chunks, [chunk]);
            assert Concat([chunk]) == chunk;
          }
        }
      case Complete(num, memory) =>
        if s.rx.CanComplete(num) {
          R.CompleteInv(s.rx, num, memory);
        }
    }
  }

  lemma WireGrows(s: S.Ss, e: S.Event)
    ensures s.wire <= S.Step(s, e).wire
  {
    hide RunBytes;
  }

  // ----- what the receiver's stream consists of

  lemma SubmittedFit(s: S.Ss)
    requires S.Inv(s)
    ensures forall b :: b in s.submitted ==> |b| <= MAX_CACHE_SIZE
  {
    hide RunBytes, S.OnWire, S.PlacedAt;
  }

  /** What has arrived without a gap is a beginning of the framed bodies. */
  lemma StreamOfFrames(s: Sys)
    requires Inv(s)
    ensures s.tx.Reached() <= |s.tx.submitted| && s.rx.Reached() <= |s.rx.chunks|
    ensures s.rx.Stream() <= FrameAll(s.tx.submitted[..s.tx.Reached()])
  {
    hide RunBytes, Frame, RunLen, Content, R.Parsing, R.Placed, R.Ledger, S.Placed, S.Watched;
    var k, frames := s.tx.Reached(), S.Frames(s.tx.submitted);
    S.ConcatFrames(s.tx.submitted[..k]);
    assert S.Frames(s.tx.submitted[..k]) == frames[..k];
    var chunks, r := s.rx.chunks, s.rx.Reached();
    assert chunks == chunks[..r] + chunks[r..];
    ConcatSplits(chunks[..r], chunks[r..]);
  }

  /** In every reachable state the messages handed on are the first bodies submitted, numbered from 1. */
  lemma {:induction false} InOrderDelivery(es: seq<Event>)
    ensures var s := Run(es);
      && |s.rx.rx.out| <= |s.tx.submitted|
      && forall i :: 0 <= i < |s.rx.rx.out| ==> s.rx.rx.out[i] == Message(i + 1, s.tx.submitted[i])
  {
    hide Run, Inv;
    RunInv(es);
    InOrder(Run(es));
  }

  lemma InOrder(s: Sys)
    requires Inv(s)
    ensures |s.rx.rx.out| <= |s.tx.submitted| && s.rx.rx.out == Numbered(s.tx.submitted[..|s.rx.rx.out|], 0)
  {
    hide S.Inv, R.Placed, R.Ledger, Content, Parse, RunBytes, RunLen, FrameAll, Concat;
    var m := ParsedWith(s.rx);
    var k := ParseBound(s, m);
    assert s.tx.submitted[..s.tx.Reached()][..k] == s.tx.submitted[..k];
  }

  lemma ParsedWith(s: R.Rs) returns (m: nat)
    requires R.Inv(s)
    ensures R.Bodies(s.rx.out) == Parse(s.Stream(), m).bodies
    ensures !s.closed ==> m == |s.rx.out| + 1 && Parse(s.Stream(), m).status == NeedMore
  {
    hide Parse, R.Placed, R.Ledger, Content;
    if s.closed {
      m :| R.StoppedAt(s, m);
    } else {
      m := |s.rx.out| + 1;
    }
  }

  lemma ParseBound(s: Sys, m: nat) returns (k: nat)
    requires Inv(s)
    ensures s.tx.Reached() <= |s.tx.submitted| && k <= s.tx.Reached() && s.rx.Reached() <= |s.rx.chunks|
    ensures CutsAt(s.rx.Stream(), m, s.tx.submitted[..s.tx.Reached()], k)
  {
    hide S.Inv, R.Inv, CutsAt;
    SubmittedFit(s.tx);
    StreamOfFrames(s);
    k := ParsePrefix(s.tx.submitted[..s.tx.Reached()], s.rx.Stream(), m);
  }

  /** The receiver never finds anything wrong with what the sender sent: a call can fail for want of memory
    * only, and never follows a null pointer. */
  lemma NeverRejected(es: seq<Event>, num: nat, memory: nat)
    requires Run(es).rx.CanComplete(num)
    ensures var rx := Run(es).rx; var pushed := rx.rx.Push(num, Full(rx.chunks[num - 1]));
      Code(Parse(pushed.Run(), memory).status) in {0, -3} && !pushed.Faults(memory)
  {
    hide Run, S.Inv, R.Inv, Parse, RunBytes, CutsAt, R.Rs.Complete, Insert;
    var s := Run(es);
    RunInv(es);
    var t := Step(s, Event.Complete(num, memory));
    StepInv(s, Event.Complete(num, memory));
    var n := |s.rx.rx.out|;
    var k := ParseBound(t, n + memory);
    CutsStatus(t.rx.Stream(), n + memory, t.tx.submitted[..t.tx.Reached()], k);
    R.WholeParse(s.rx, num, memory);
  }

  lemma CutsStatus(s: seq<byte>, m: nat, bodies: seq<seq<byte>>, k: nat)
    requires k <= |bodies| && CutsAt(s, m, bodies, k)
    ensures Parse(s, m).status == NeedMore || Parse(s, m).status == NoMemory
  {}

  // ----- nothing is lost

  /** How many leading bodies the receiver can get a message buffer for. */
  function Fitting(bodies: seq<seq<byte>>): (n: nat)
    ensures n <= |bodies|
    ensures forall i :: 0 <= i < n ==> FitsMessage(|bodies[i]|)
    ensures n < |bodies| ==> !FitsMessage(|bodies[n]|)
  {
    if |bodies| == 0 || !FitsMessage(|bodies[0]|) then 0 else 1 + Fitting(bodies[1..])
  }

  /** Everything submitted is prepared and sent; and the receiver has either failed, or read all of it and
    * handed it to RecvPacket. */
  ghost predicate Settled(s: Sys) {
    && s.tx.unprepared == {} && RunLen(s.tx.tx.list, s.tx.tx.lastSent) == 0
    && (s.rx.closed || (Concat(s.rx.chunks) == s.tx.wire && s.rx.inFlight == {}))
  }

  /** The receiver's memory cache never runs out of buffers: every call could have more than n. */
  predicate Generous(es: seq<Event>, n: nat) {
    forall i :: 0 <= i < |es| && es[i].Complete? ==> es[i].memory > n
  }

  /** The receiver has failed although it had more than n message buffers. */
  ghost predicate FailedBeyond(s: R.Rs, n: nat) {
    s.Reached() <= |s.chunks| && exists m :: m > n && R.StoppedAt(s, m)
  }

  lemma {:induction false} FailedBySize(es: seq<Event>, n: nat)
    requires Generous(es, n) && Run(es).rx.closed
    ensures FailedBeyond(Run(es).rx, n)
  {
    hide Inv, R.StoppedAt, Receiver.Rx.Push, Receiver.Rx.Unpack;
    if |es| > 0 {
      var before := es[..|es| - 1];
      var s, e := Run(before), es[|es| - 1];
      if s.rx.closed {
        FailedBySize(before, n);
      } else if e.Complete? && s.rx.CanComplete(e.num) {
        RunInv(before);
        FailsAt(s, e.num, e.memory, n);
      }
    }
  }

  lemma FailsAt(s: Sys, num: nat, memory: nat, n: nat)
    requires Inv(s) && s.rx.CanComplete(num) && s.rx.Complete(num, memory).closed && memory > n
    ensures FailedBeyond(s.rx.Complete(num, memory), n)
  {
    hide S.Inv, R.Inv, Parse, Receiver.Rx.Push, Receiver.Rx.Unpack;
    R.CompleteParses(s.rx, num, memory);
    assert R.StoppedAt(s.rx.Complete(num, memory), |s.rx.rx.out| + memory);
  }

  /** Once all is settled, the bodies that have come out are those before the first one that is too big for any
    * message buffer, and the receiver has failed exactly if there is one. */
  lemma {:induction false} AllDelivered(es: seq<Event>)
    requires Settled(Run(es)) && Generous(es, |Run(es).tx.submitted|)
    ensures var s := Run(es);
      && s.rx.rx.out == Numbered(s.tx.submitted[..Fitting(s.tx.submitted)], 0)
      && |s.rx.rx.out| == Fitting(s.tx.submitted)
      && forall i :: 0 <= i < |s.rx.rx.out| ==> s.rx.rx.out[i] == Message(i + 1, s.tx.submitted[i])
    ensures var s := Run(es); s.rx.closed <==> Fitting(s.tx.submitted) < |s.tx.submitted|
  {
    hide Run, Inv, Settled, Generous, Fitting, FailedBeyond;
    RunInv(es);
    var s := Run(es);
    if s.rx.closed {
      FailedBySize(es, |s.tx.submitted|);
    }
    AllOut(s);
  }

  lemma AllOut(s: Sys)
    requires Inv(s) && Settled(s) && (s.rx.closed ==> FailedBeyond(s.rx, |s.tx.submitted|))
    ensures s.rx.rx.out == Numbered(s.tx.submitted[..Fitting(s.tx.submitted)], 0)
    ensures s.rx.closed <==> Fitting(s.tx.submitted) < |s.tx.submitted|
  {
    hide S.Inv, R.Inv, Parse, RunBytes, CutsAt, FrameAll, Concat, RunLen, Fitting;
    SentAll(s.tx);
    assert s.tx.submitted[..s.tx.Reached()] == s.tx.submitted;
    InOrder(s);
    if s.rx.closed {
      var m :| m > |s.tx.submitted| && R.StoppedAt(s.rx, m);
      var k := ParseBound(s, m);
      CutsTooBig(s.rx.Stream(), m, s.tx.submitted, k);
      FittingIs(s.tx.submitted, k);
    } else {
      AllReached(s.rx);
      assert s.rx.chunks[..|s.rx.chunks|] == s.rx.chunks;
      WholeStream(s);
      var m := ParsedWith(s.rx);
      var k := ParseBound(s, m);
      CutsAll(s.rx.Stream(), m, s.tx.submitted, k);
      FittingIs(s.tx.submitted, k);
    }
  }

  /** So everything submitted arrives exactly if there is a message buffer big enough for each body. */
  lemma DeliveredIff(es: seq<Event>)
    requires Settled(Run(es)) && Generous(es, |Run(es).tx.submitted|)
    ensures var s := Run(es);
      (|s.rx.rx.out| == |s.tx.submitted|
       && forall i :: 0 <= i < |s.rx.rx.out| ==> s.rx.rx.out[i] == Message(i + 1, s.tx.submitted[i]))
      <==> forall b :: b in s.tx.submitted ==> |b| <= 1048484
  {
    hide Run, Settled, Generous;
    AllDelivered(es);
    FittingAll(Run(es).tx.submitted);
  }

  lemma FittingAll(bodies: seq<seq<byte>>)
    ensures Fitting(bodies) == |bodies| <==> forall b :: b in bodies ==> FitsMessage(|b|)
  {
    hide FitsMessage;
    var n := Fitting(bodies);
    assert forall i :: 0 <= i < |bodies| ==> bodies[i] in bodies;
  }

  /** The lengths for which the sender gets a buffer, but the receiver never does. */
  lemma LengthsBetween(len: nat)
    ensures FitsBuffer(len) && !FitsMessage(len) <==> 1048485 <= len <= 1048504
  {}

  lemma SentAll(s: S.Ss)
    requires S.Inv(s) && s.unprepared == {} && RunLen(s.tx.list, s.tx.lastSent) == 0
    ensures s.Reached() == s.tx.lastSent == |s.submitted|
  {
    hide RunBytes, RunLen, Frame, Content, S.Watched, FitsBuffer;
    var n := s.tx.lastSent;
    ContentNums(s.tx.list, n, S.Frames(s.submitted));
    FirstNum(s.tx.list, n);
    assert n < |s.submitted| ==> S.PlacedAt(s, n + 1);
  }

  lemma FittingIs(bodies: seq<seq<byte>>, n: nat)
    requires n <= |bodies| && forall i :: 0 <= i < n ==> FitsMessage(|bodies[i]|)
    requires n < |bodies| ==> !FitsMessage(|bodies[n]|)
    ensures Fitting(bodies) == n
  {
    hide FitsMessage;
  }

  // the run takes in every listed number that continues it
  lemma {:induction false} FirstNum(list: BufList, last: nat)
    requires Increasing(list) && forall i :: 0 <= i < |list| ==> last < list[i].num
    ensures !Has(list, last + RunLen(list, last) + 1)
  {
    if RunLen(list, last) > 0 {
      var tail := list[1..];
      assert forall i :: 0 <= i < |tail| ==> tail[i] == list[i + 1];
      FirstNum(tail, last + 1);
      assert forall i :: 0 <= i < |list| && list[i].num > last + 1 ==> list[i] == tail[i - 1];
    } else {
      assert forall i :: 0 < i < |list| ==> list[0].num < list[i].num;
    }
  }

  lemma AllReached(s: R.Rs)
    requires R.Inv(s) && s.inFlight == {}
    ensures s.Reached() == |s.chunks|
  {
    hide RunBytes, RunLen, R.Parsing, Content;
    FirstNum(s.rx.list, s.rx.last);
  }

  lemma WholeStream(s: Sys)
    requires Inv(s) && Concat(s.rx.chunks) == s.tx.wire && RunLen(s.tx.tx.list, s.tx.tx.lastSent) == 0
    ensures s.tx.Reached() <= |s.tx.submitted|
    ensures s.tx.wire == FrameAll(s.tx.submitted[..s.tx.Reached()])
  {
    hide Frame, Content, S.Placed, S.Watched, R.Inv, RunLen;
    RunStep(s.tx.tx.list, s.tx.tx.lastSent);
    var k := s.tx.Reached();
    S.ConcatFrames(s.tx.submitted[..k]);
    assert S.Frames(s.tx.submitted[..k]) == S.Frames(s.tx.submitted)[..k];
    assert s.tx.tx.list[..0] == [];
  }

  lemma CutsAll(s: seq<byte>, m: nat, bodies: seq<seq<byte>>, k: nat)
    requires k <= |bodies| && CutsAt(s, m, bodies, k) && s == FrameAll(bodies) && Parse(s, m).status == NeedMore
    ensures k == |bodies| == |Parse(s, m).bodies| && forall i :: 0 <= i < k ==> FitsMessage(|bodies[i]|)
  {
    hide Parse, Frame, FitsMessage;
    assert bodies == bodies[..k] + bodies[k..];
    FrameAllSplits(bodies[..k], bodies[k..]);
  }

  lemma CutsTooBig(s: seq<byte>, m: nat, bodies: seq<seq<byte>>, k: nat)
    requires k <= |bodies| < m && CutsAt(s, m, bodies, k) && Parse(s, m).status != NeedMore
    ensures k < |bodies| && !FitsMessage(|bodies[k]|) && k == |Parse(s, m).bodies|
    ensures forall i :: 0 <= i < k ==> FitsMessage(|bodies[i]|)
  {
    hide Parse, Frame, FitsMessage;
  }
}
