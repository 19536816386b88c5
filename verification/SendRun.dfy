/** Whole runs of the sending half: packets are submitted, prepared in any order, and flushed whenever the
  * socket and the poller give occasion to. */
module SendRun {
  import opened LittleEndian
  import opened Wire
  import opened SortedList
  import opened Buffers
  import opened Sockets
  import opened Streams
  import opened Sender

  function Frames(bodies: seq<seq<byte>>): (fs: seq<seq<byte>>)
    ensures |fs| == |bodies|
  {
    seq(|bodies|, i requires 0 <= i < |bodies| => Frame(bodies[i]))
  }

  lemma {:induction false} ConcatFrames(bodies: seq<seq<byte>>)
    ensures Concat(Frames(bodies)) == FrameAll(bodies)
  {
    hide Frame;
    if |bodies| > 0 {
      ConcatFrames(bodies[1..]);
      assert Frames(bodies)[1..] == Frames(bodies[1..]);
    }
  }

  /** submitted[i] is the body that got number i + 1, and only a body that fits a buffer of the cache gets one;
    * unprepared are the numbers not pushed yet; failed tells that the poller once refused to watch the connection;
    * due, that the task which created the connection is still to call SendDataList. Two fields are history:
    * waiting, that a packet was next in turn when the state was set; flushed, that SendDataList was called. */
  datatype Ss = Ss(tx: Tx, submitted: seq<seq<byte>>, unprepared: set<nat>, wire: seq<byte>,
                   established: bool, failed: bool, due: bool, waiting: bool, flushed: bool)
  {
    function Submit(body: seq<byte>): Ss
      requires FitsBuffer(|body|)
    {
      this.(tx := tx.(sendIndex := tx.sendIndex + 1, next := tx.next + 1),
            submitted := submitted + [body], unprepared := unprepared + {tx.next})
    }

    predicate CanPrepare(num: nat) { num in unprepared && 0 < num <= |submitted| }

    function Push(num: nat): Ss
      requires CanPrepare(num)
    {
      this.(tx := tx.(list := Insert(tx.list, Entry(num, Full(Frame(submitted[num - 1]))))),
            unprepared := unprepared - {num})
    }

    /** One call of SendDataList in which the socket takes the first c bytes of the run, or all of them. */
    function Flush(c: nat, pollerWorks: bool): Ss {
      var n := Min(c, |tx.Run()|);
      var left := n < |tx.Run()|;
      this.(tx := tx.Consume(n).(armed := tx.armed || (left && pollerWorks)), wire := wire + tx.Run()[..n],
            failed := failed || (left && !pollerWorks), flushed := true)
    }

    /** The connection changes its state to ESTABLISHED, and that is all. */
    function Establish(onRequest: bool): Ss {
      this.(established := true, due := onRequest, waiting := tx.Run() != [])
    }

    function Reached(): nat { tx.lastSent + RunLen(tx.list, tx.lastSent) }
  }

  /** Every call of SendDataList that meets no hard error is such a flush. */
  lemma SentIsFlush(s: Ss, tx': Tx, wire': seq<byte>, ret: int) returns (c: nat)
    requires Sent(s.tx, s.wire, tx', wire', ret)
    ensures |wire'| == |s.wire| + c
    ensures s.Flush(c, ret == 0) == s.(tx := tx', wire := wire', failed := s.failed || ret == -4, flushed := true)
  {
    hide RunBytes, Tx.Consume;
    c := |wire'| - |s.wire|;
  }

  // whether the poller works matters only if something is left
  lemma FlushOutcome(s: Ss, c: nat, succeeded: bool, pollerWorks: bool)
    requires succeeded == (s.Flush(c, succeeded).tx.Run() == [] || pollerWorks)
    ensures s.Flush(c, succeeded) == s.Flush(c, pollerWorks)
  {
    hide RunBytes;
  }

  const INIT := Ss(Tx(0, 1, 0, [], false), [], {}, [], false, false, false, false, false)

  /** A connection that is accepted changes its state and does no more. One that is created on a request is
    * followed up, at some time, by a call of SendDataList: the event Created. */
  datatype Event =
    | Submit(body: seq<byte>)
    | Prepare(num: nat, c: nat, pollerWorks: bool)
    | Establish(onRequest: bool)
    | Created(c: nat, pollerWorks: bool)
    | Writable(c: nat, pollerWorks: bool)

  /** Events that cannot happen in a state change nothing. */
  function Step(s: Ss, e: Event): Ss {
    match e
    case Submit(body) => if FitsBuffer(|body|) then s.Submit(body) else s
    case Prepare(num, c, pollerWorks) =>
      if !s.CanPrepare(num) then s
      else if s.established then s.Push(num).Flush(c, pollerWorks)
      else s.Push(num)
    case Establish(onRequest) => if s.established then s else s.Establish(onRequest)
    case Created(c, pollerWorks) => if s.due then s.(due := false).Flush(c, pollerWorks) else s
    case Writable(c, pollerWorks) =>
      if s.established && s.tx.armed then s.(tx := s.tx.(armed := false)).Flush(c, pollerWorks) else s
  }

  function Run(es: seq<Event>): Ss {
    if |es| == 0 then INIT else Step(Run(es[..|es| - 1]), es[|es| - 1])
  }

  // ----- the invariant

  /** A packet that has been prepared is listed or on the wire. */
  ghost predicate PlacedAt(s: Ss, n: nat) {
    n <= s.tx.lastSent || Has(s.tx.list, n) <==> n !in s.unprepared
  }

  ghost predicate Placed(s: Ss) {
    && s.tx.next == |s.submitted| + 1
    && s.tx.lastSent <= |s.submitted|
    && Increasing(s.tx.list)
    && (forall n :: n in s.unprepared ==> 0 < n <= |s.submitted|)
    && (forall b :: b in s.submitted ==> FitsBuffer(|b|))
    && (forall n: nat :: 0 < n <= |s.submitted| ==> PlacedAt(s, n))
  }

  /** What is on the wire, and in the run behind it, is the beginning of the stream of frames. */
  ghost predicate OnWire(s: Ss) {
    && s.tx.NonEmpty()
    && Content(s.tx.list, s.tx.lastSent, Frames(s.submitted))
    && s.Reached() <= |s.submitted|
    && s.wire + s.tx.Run() == Concat(Frames(s.submitted)[..s.Reached()])
  }

  /** Before the first call of SendDataList nobody watches, and what waits has waited since the state was set;
    * after it, what can go out next is watched for. */
  ghost predicate Watched(s: Ss) {
    && (!s.established ==> !s.flushed && !s.due)
    && (!s.flushed ==> !s.tx.armed && !s.failed && (s.established ==> (s.tx.Run() != [] <==> s.waiting)))
    && (s.flushed && !s.failed && s.tx.Run() != [] ==> s.tx.armed)
  }

  ghost predicate Inv(s: Ss) { Placed(s) && OnWire(s) && Watched(s) }

  lemma InitInv()
    ensures Inv(INIT)
  {
    assert INIT.tx.list[..0] == [] && Frames([])[..0] == [];
  }

  lemma SubmitInv(s: Ss, body: seq<byte>)
    requires Inv(s) && FitsBuffer(|body|)
    ensures Inv(s.Submit(body))
  {
    hide RunBytes, RunLen, Frame, FitsBuffer, Placed, Content;
    var t := s.Submit(body);
    SubmitPlaced(s, body);
    assert Frames(t.submitted)[..s.Reached()] == Frames(s.submitted)[..s.Reached()];
    ContentGrows(s.tx.list, s.tx.lastSent, Frames(s.submitted), Frames(t.submitted));
  }

  lemma SubmitPlaced(s: Ss, body: seq<byte>)
    requires Inv(s) && FitsBuffer(|body|)
    ensures Placed(s.Submit(body))
  {
    hide RunBytes, RunLen, FitsBuffer, Content, Watched, Increasing, Has;
    var t := s.Submit(body);
    ContentNums(s.tx.list, s.tx.lastSent, Frames(s.submitted));
    NotListed(s.tx.list, |t.submitted|);
    forall n: nat | 0 < n <= |t.submitted|
      ensures PlacedAt(t, n)
    {
      if n <= |s.submitted| {
        assert PlacedAt(s, n);
      }
    }
  }

  lemma NotListed(list: BufList, n: nat)
    requires forall i :: 0 <= i < |list| ==> list[i].num < n
    ensures !Has(list, n)
  {}

  lemma PushInv(s: Ss, num: nat)
    requires Inv(s) && s.CanPrepare(num)
    ensures Placed(s.Push(num)) && OnWire(s.Push(num))
  {
    hide RunBytes, RunLen, Insert, Fits, Concat, Frame;
    var t := s.Push(num);
    assert PlacedAt(s, num);
    InsertFresh(s.tx.list, Entry(num, Full(Frame(s.submitted[num - 1]))));
    PushOnWire(s, num);
    forall n: nat | 0 < n <= |t.submitted|
      ensures PlacedAt(t, n)
    {
      assert PlacedAt(s, n);
    }
  }

  lemma PushOnWire(s: Ss, num: nat)
    requires OnWire(s) && s.CanPrepare(num)
    requires Increasing(s.tx.list) && !Has(s.tx.list, num) && s.tx.lastSent < num
    ensures OnWire(s.Push(num))
  {
    hide RunBytes, RunLen, Insert, Concat, Content, Increasing, Frame;
    var t := s.Push(num);
    var frames, list := Frames(s.submitted), s.tx.list;
    PushContent(list, s.tx.lastSent, frames, Entry(num, Full(frames[num - 1])));
    PushRun(list, s.tx.lastSent, frames, num);
    InsertNonEmpty(list, Entry(num, Full(frames[num - 1])));
    assert frames[0..t.Reached()] == frames[..t.Reached()] && frames[0..s.Reached()] == frames[..s.Reached()];
    ConcatSlices(frames, 0, s.Reached(), t.Reached());
  }

  lemma FlushInv(s: Ss, c: nat, pollerWorks: bool)
    requires Placed(s) && OnWire(s) && s.established
    ensures Inv(s.Flush(c, pollerWorks))
  {
    hide RunBytes, OnWire, Drop;
    FlushPlaced(s, c, pollerWorks);
    FlushOnWire(s, c, pollerWorks);
  }

  lemma FlushPlaced(s: Ss, c: nat, pollerWorks: bool)
    requires Placed(s) && OnWire(s)
    ensures Placed(s.Flush(c, pollerWorks))
  {
    hide RunBytes, RunLen, Frame, Fits, FitsBuffer, Concat, Drop, Content, Has;
    var t := s.Flush(c, pollerWorks);
    var n := Min(c, |s.tx.Run()|);
    DropRun(s.tx.list, s.tx.lastSent, n);
    ConsumeContent(s.tx.list, s.tx.lastSent, n, Frames(s.submitted));
    ConsumeNums(s.tx.list, s.tx.lastSent, n);
    forall m: nat | 0 < m <= |t.submitted|
      ensures PlacedAt(t, m)
    {
      assert PlacedAt(s, m);
      if m <= t.tx.lastSent && m > s.tx.lastSent && !Has(s.tx.list, m) {
        assert false;
      }
    }
  }

  lemma FlushOnWire(s: Ss, c: nat, pollerWorks: bool)
    requires OnWire(s) && Increasing(s.tx.list)
    ensures OnWire(s.Flush(c, pollerWorks))
  {
    hide RunBytes, RunLen, Frame, Fits, Concat, Drop, Content;
    var n := Min(c, |s.tx.Run()|);
    DropRun(s.tx.list, s.tx.lastSent, n);
    DropRunLen(s.tx.list, s.tx.lastSent, n);
    ConsumeContent(s.tx.list, s.tx.lastSent, n, Frames(s.submitted));
    DropNonEmpty(s.tx.list, n);
    assert s.wire + s.tx.Run()[..n] + s.tx.Run()[n..] == s.wire + s.tx.Run();
  }

  lemma {:induction false} RunInv(es: seq<Event>)
    ensures Inv(Run(es))
  {
    hide Inv, Placed, OnWire, Watched;
    if |es| == 0 {
      InitInv();
    } else {
      RunInv(es[..|es| - 1]);
      StepInv(Run(es[..|es| - 1]), es[|es| - 1]);
    }
  }

  lemma {:induction false} StepInv(s: Ss, e: Event)
    requires Inv(s)
    ensures Inv(Step(s, e))
  {
    hide Placed, OnWire, Watched, FitsBuffer, Ss.Push, Ss.Flush, Ss.Submit, Ss.Establish;
    match e {
      case Submit(body) => if FitsBuffer(|body|) { SubmitInv(s, body); }
      case Prepare(num, c, pollerWorks) =>
        if s.CanPrepare(num) {
          PrepareInv(s, num, c, pollerWorks);
        }
      case Establish(onRequest) => if !s.established { EstablishInv(s, onRequest); }
      case Created(c, pollerWorks) =>
        if s.due {
          DueEstablished(s);
          SameList(s, s.(due := false));
          FlushInv(s.(due := false), c, pollerWorks);
        }
      case Writable(c, pollerWorks) =>
        if s.established && s.tx.armed {
          SameList(s, s.(tx := s.tx.(armed := false)));
          FlushInv(s.(tx := s.tx.(armed := false)), c, pollerWorks);
        }
    }
  }

  lemma PrepareInv(s: Ss, num: nat, c: nat, pollerWorks: bool)
    requires Inv(s) && s.CanPrepare(num)
    ensures Inv(Step(s, Prepare(num, c, pollerWorks)))
  {
    hide Placed, OnWire, Watched, FitsBuffer, Ss.Push, Ss.Flush;
    PushInv(s, num);
    PushKeeps(s, num);
    if s.established {
      FlushInv(s.Push(num), c, pollerWorks);
    }
  }

  lemma PushKeeps(s: Ss, num: nat)
    requires s.CanPrepare(num)
    ensures s.Push(num).established == s.established
    ensures !s.established && Watched(s) ==> Watched(s.Push(num))
  {
    hide RunBytes, Insert;
  }

  lemma EstablishInv(s: Ss, onRequest: bool)
    requires Inv(s) && !s.established
    ensures Inv(s.Establish(onRequest))
  {
    hide Placed, OnWire, RunBytes;
    SameList(s, s.Establish(onRequest));
  }

  lemma DueEstablished(s: Ss)
    requires Watched(s) && s.due
    ensures s.established
  {
    hide RunBytes;
  }

  lemma SameList(s: Ss, t: Ss)
    requires t == s.(established := t.established, due := t.due, waiting := t.waiting,
                     tx := s.tx.(armed := t.tx.armed))
    requires Placed(s) && OnWire(s)
    ensures Placed(t) && OnWire(t)
  {
    hide RunBytes, RunLen, Content, FitsBuffer;
    assert forall n: nat :: 0 < n <= |s.submitted| ==> (PlacedAt(s, n) <==> PlacedAt(t, n));
  }

  /** Over all partial writes, the bytes on the wire are the packets 1..lastSent in full, then the beginning
    * of the next one, exactly as long as its read pointer has advanced. */
  lemma {:induction false} WireInOrder(es: seq<Event>)
    ensures var s := Run(es);
      && s.tx.lastSent <= |s.submitted|
      && var head := s.tx.list;
         if |head| > 0 && head[0].num == s.tx.lastSent + 1
         then s.tx.lastSent < |s.submitted| && head[0].item.cur < |Frame(s.submitted[s.tx.lastSent])|
           && s.wire == FrameAll(s.submitted[..s.tx.lastSent]) + Frame(s.submitted[s.tx.lastSent])[..head[0].item.cur]
         else s.wire == FrameAll(s.submitted[..s.tx.lastSent])
  {
    hide Run, Watched, OnWire, PlacedAt, FrameAll, Frame;
    RunInv(es);
    InOrder(Run(es));
  }

  lemma InOrder(s: Ss)
    requires OnWire(s) && s.tx.lastSent <= |s.submitted|
    ensures var n, list := s.tx.lastSent, s.tx.list;
      if |list| > 0 && list[0].num == n + 1
      then n < |s.submitted| && list[0].item.cur < |Frame(s.submitted[n])|
        && s.wire == FrameAll(s.submitted[..n]) + Frame(s.submitted[n])[..list[0].item.cur]
      else s.wire == FrameAll(s.submitted[..n])
  {
    hide RunBytes, Frame, Content, Concat, FrameAll;
    var frames, n := Frames(s.submitted), s.tx.lastSent;
    ConcatFrames(s.submitted[..n]);
    assert Frames(s.submitted[..n]) == frames[..n];
    RunStep(s.tx.list, n);
    var k := n + RunLen(s.tx.list, n);
    if k > n {
      hide RunLen;
      RunParts(s.tx.list, n, frames);
      NextFrame(frames, n, k, s.wire, s.tx.list[0].item.cur, s.tx.list[0].item.Left());
      assert s.tx.list[0].item.len > 0;
    } else {
      assert s.tx.Run() == [];
      assert s.wire + [] == s.wire;
    }
  }

  lemma NextFrame(frames: seq<seq<byte>>, n: nat, k: nat, wire: seq<byte>, cur: nat, left: seq<byte>)
    requires n < k <= |frames| && cur <= |frames[n]| && left == frames[n][cur..]
    requires wire + (left + Concat(frames[n + 1..k])) == Concat(frames[..k])
    ensures wire == Concat(frames[..n]) + frames[n][..cur]
  {
    assert frames[..k] == frames[0..k] && frames[..n] == frames[0..n];
    ConcatSlices(frames, 0, n, k);
    assert frames[n..k][1..] == frames[n + 1..k];
    var tail := left + Concat(frames[n + 1..k]);
    var front := Concat(frames[..n]) + frames[n][..cur];
    assert Concat(frames[..k]) == front + tail;
    assert wire == (wire + tail)[..|wire|];
    assert front == (front + tail)[..|front|];
  }

  // ----- stranded output

  /** A packet that can go out next is listed in an established connection, and nobody watches for it. */
  predicate Stranded(s: Ss) {
    s.established && |s.tx.list| > 0 && s.tx.list[0].num == s.tx.lastSent + 1 && !s.tx.armed
  }

  /** The code strands output. In a connection whose poller obeys, that is so exactly if a packet was next in
    * turn when the state was set, and SendDataList has not been called since. */
  lemma StrandedIff(es: seq<Event>)
    requires !Run(es).failed
    ensures var s := Run(es); Stranded(s) <==> s.waiting && !s.flushed
  {
    hide RunBytes, Run, Placed, Content, Concat;
    RunInv(es);
    RunStep(Run(es).tx.list, Run(es).tx.lastSent);
    WaitingOnce(es);
  }

  // the history is about an established connection
  lemma {:induction false} WaitingOnce(es: seq<Event>)
    ensures Run(es).waiting ==> Run(es).established
  {
    hide RunBytes, Ss.CanPrepare, FitsBuffer;
    if |es| > 0 {
      WaitingOnce(es[..|es| - 1]);
    }
  }

  /** Whatever waits, no call of SendDataList is still to come: nothing is to be prepared, nobody watches, and
    * the connection was not created on a request (onRequest tells, before it is established, if it will be). */
  ghost predicate Stuck(s: Ss, onRequest: bool) {
    s.tx.Run() != [] && s.unprepared == {} && !s.tx.armed && !s.due && (s.established || !onRequest)
  }

  /** In an established connection whose poller obeys, that is so exactly if output is stranded and neither a
    * preparation nor the task's call is still to come. */
  lemma StuckIff(es: seq<Event>, onRequest: bool)
    requires Run(es).established && !Run(es).failed
    ensures var s := Run(es);
      Stuck(s, onRequest) <==> s.waiting && !s.flushed && s.unprepared == {} && !s.due
  {
    hide Run, Placed, OnWire;
    RunInv(es);
  }

  /** Then only a new packet gets it out: every other event leaves it where it is. */
  lemma StuckStays(s: Ss, onRequest: bool, e: Event)
    requires Stuck(s, onRequest) && !e.Submit? && (e.Establish? ==> e.onRequest == onRequest)
    ensures Stuck(Step(s, e), onRequest)
    ensures Step(s, e).tx == s.tx && Step(s, e).wire == s.wire && Step(s, e).submitted == s.submitted
  {
    hide RunBytes;
  }

  /** An accepted connection gets stuck by changing its state, if everything submitted is prepared and something
    * of it can go out; one that is created on a request does not. */
  lemma EstablishSticks(es: seq<Event>, onRequest: bool)
    requires !Run(es).established
    ensures var s := Run(es);
      Stuck(Step(s, Establish(onRequest)), onRequest) <==> !onRequest && s.tx.Run() != [] && s.unprepared == {}
  {
    hide RunBytes, Run, Placed, OnWire;
    RunInv(es);
  }

  /** The reply that a handler gives between the attachment of an accepted connection to the poller and the
    * change of its state. */
  lemma ReplyStranded(body: seq<byte>, pollerWorks: bool)
    requires FitsBuffer(|body|)
    ensures var s := Run([Submit(body), Prepare(1, 0, pollerWorks), Establish(false)]);
      && Stranded(s) && Stuck(s, false) && !s.failed
      && s.submitted == [body] && s.wire == []
  {
    hide RunBytes, Frame, FitsBuffer;
    var es := [Submit(body), Prepare(1, 0, pollerWorks), Establish(false)];
    assert es[..2] == [Submit(body), Prepare(1, 0, pollerWorks)] && es[..2][..1] == [Submit(body)];
    assert es[..2][..1][..0] == [];
    var s1 := Step(INIT, Submit(body));
    assert Run([Submit(body)]) == s1;
    var s2 := Step(s1, Prepare(1, 0, pollerWorks));
    assert Run(es[..2]) == s2;
    assert s2.tx.list == [Entry(1, Full(Frame(body)))] && s2.unprepared == {};
    RunStep(s2.tx.list, 0);
    assert Run(es) == Step(s2, Establish(false));
  }

  // ----- the methods and the events

  /** SendPacket up to the number is a Submit event, or none if the packet got no buffer. */
  method NumberStep(side: SendSide, data: seq<byte>, mesCode: nat, objectGuid: seq<byte>, requestId: seq<byte>,
                    memory: nat, ghost s: Ss)
    returns (n: Node?<Buf>, fault: bool, ghost t: Ss)
    requires side.Valid() && side.Value() == s.tx && Inv(s)
    requires |objectGuid| == |requestId| == GUID_LEN && |data| < 0x1_0000_0000
    modifies side`sendIndex, side`next
    ensures side.Valid() && side.Value() == t.tx
    ensures n == null ==> t == s
    ensures fault ==> n == null && |data| >= 0x1_0000_0000 - BUFFER_HEAD - HEADER_LEN - BODY_HEAD
    ensures n != null ==> HEADER_LEN <= |n.item.data| && n.item.cur == 0 && n.item.len == |n.item.data|
    ensures n != null ==> var body := n.item.data[HEADER_LEN..];
      t == Step(s, Submit(body)) && t.CanPrepare(n.num) && t.submitted[n.num - 1] == body
  {
    hide List.Valid, OnWire, FitsBuffer, PlacedAt;
    n, fault := side.NumberPacket(data, mesCode, objectGuid, requestId, memory);
    t := if n == null then s else Step(s, Submit(n.item.data[HEADER_LEN..]));
  }

  /** SendAssembledPacket is a Prepare event, in which the socket took c more bytes: PostSend refuses no packet
    * that has a number. */
  method PostStep(side: SendSide, n: Node<Buf>, established: bool, sock: Socket, pollerWorks: bool, ghost s: Ss)
    returns (ret: int, broken: bool, ghost c: nat, ghost t: Ss)
    requires side.Valid() && side.Value() == s.tx && sock.wire == s.wire && Inv(s) && n !in side.list.nodes
    requires established == s.established
    requires s.CanPrepare(n.num) && n.item.cur == 0 && HEADER_LEN <= n.item.len == |n.item.data|
    requires n.item.data[HEADER_LEN..] == s.submitted[n.num - 1]
    modifies side`lastSent, side`armed, side.list, side.list.Cells(), n, sock`script, sock`wire
    ensures side.Valid() && t == Step(s, Prepare(n.num, c, pollerWorks))
    ensures broken <==> HardIn(Used(old(sock.script), sock.script))
    ensures !broken ==> side.Value() == t.tx && sock.wire == t.wire && (t.failed <==> s.failed || ret == -4)
  {
    hide List.Valid, OnWire, PlacedAt, Insert, Sent, Ss.Flush, Heard, RunBytes;
    assert Sendable(s.submitted[n.num - 1]);
    ret, broken := side.SendAssembledPacket(n, established, sock, pollerWorks);
    c := 0;
    if !broken && established {
      c := SentIsFlush(s.Push(n.num), side.Value(), sock.wire, ret);
      FlushOutcome(s.Push(n.num), c, ret == 0, pollerWorks);
    }
    t := Step(s, Prepare(n.num, c, pollerWorks));
  }

  /** The writable branch is a Writable event, unless the poller refuses to stop watching. */
  method WritableStep(side: SendSide, sock: Socket, disarmWorks: bool, pollerWorks: bool, ghost s: Ss)
    returns (ret: int, broken: bool, ghost c: nat, ghost t: Ss)
    requires side.Valid() && side.Value() == s.tx && sock.wire == s.wire && s.established && s.tx.armed
    modifies side`lastSent, side`armed, side.list, side.list.Cells(), sock`script, sock`wire
    ensures side.Valid() && t == if disarmWorks then Step(s, Writable(c, pollerWorks)) else s
    ensures broken <==> HardIn(Used(old(sock.script), sock.script))
    ensures !broken ==> side.Value() == t.tx && sock.wire == t.wire && (t.failed <==> s.failed || ret == -5)
  {
    hide List.Valid, Sent, Ss.Flush, Heard, RunBytes;
    ret, broken := side.OnWritable(sock, disarmWorks, pollerWorks);
    c := 0;
    if !broken && disarmWorks {
      c := SentIsFlush(s.(tx := s.tx.(armed := false)), side.Value(), sock.wire, if ret == -5 then -4 else 0);
      FlushOutcome(s.(tx := s.tx.(armed := false)), c, ret == 0, pollerWorks);
    }
    t := if disarmWorks then Step(s, Writable(c, pollerWorks)) else s;
  }

  /** The call that the task makes for a connection it has created on a request. */
  method CreatedStep(side: SendSide, sock: Socket, pollerWorks: bool, ghost s: Ss)
    returns (ret: int, broken: bool, ghost c: nat, ghost t: Ss)
    requires side.Valid() && side.Value() == s.tx && sock.wire == s.wire && s.due
    modifies side`lastSent, side`armed, side.list, side.list.Cells(), sock`script, sock`wire
    ensures side.Valid() && t == Step(s, Created(c, pollerWorks))
    ensures broken <==> HardIn(Used(old(sock.script), sock.script))
    ensures !broken ==> side.Value() == t.tx && sock.wire == t.wire && (t.failed <==> s.failed || ret == -4)
  {
    hide List.Valid, Sent, Ss.Flush, Heard, RunBytes;
    ret, broken := side.SendDataList(sock, pollerWorks);
    c := 0;
    if !broken {
      c := SentIsFlush(s.(due := false), side.Value(), sock.wire, ret);
      FlushOutcome(s.(due := false), c, ret == 0, pollerWorks);
    }
    t := Step(s, Created(c, pollerWorks));
  }
}
