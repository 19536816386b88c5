/** From where exactly the sender and the receiver can bring to an end what they have begun; and a run in which
  * that is not enough, because no message buffer is big enough for what was sent. */
module Progress {
  import opened LittleEndian
  import opened Wire
  import opened SortedList
  import opened Buffers
  import Receiver
  import opened Sender
  import opened Streams
  import opened EndToEnd
  import S = SendRun
  import R = ReceiveRun

  lemma RunMore(es: seq<Event>, e: Event)
    ensures Run(es + [e]) == Step(Run(es), e)
  {
    assert (es + [e])[..|es|] == es;
  }

  // ----- something can always be done

  /** What is left to do: packets to prepare, bytes to send, bytes to read, buffers to complete. */
  function Unread(s: Sys): nat {
    if |Concat(s.rx.chunks)| <= |s.tx.wire| then |s.tx.wire| - |Concat(s.rx.chunks)| else 0
  }

  /** The next thing to do, and what becomes of the state. */
  ghost predicate Nearer(s: Sys, t: Sys, onRequest: bool) {
    && t.tx.established && !S.Stuck(t.tx, onRequest) && t.tx.submitted == s.tx.submitted
    && (!s.tx.established
        || (|t.tx.unprepared| < |s.tx.unprepared|)
        || (t.tx.unprepared == s.tx.unprepared && |t.tx.tx.Run()| < |s.tx.tx.Run()|)
        || (t.tx == s.tx && Unread(t) < Unread(s))
        || (t.tx == s.tx && Unread(t) == Unread(s) && |t.rx.inFlight| < |s.rx.inFlight|))
  }

  /** No new packet is submitted, the connection keeps to how it was created, and calls of RecvPacket get a given
    * supply of message buffers. */
  predicate OwnWork(e: Event, onRequest: bool, memory: nat) {
    match e
    case Send(e) => !e.Submit? && (e.Establish? ==> e.onRequest == onRequest)
    case Arrive(_) => true
    case Complete(_, m) => m == memory
  }

  lemma PrepareNearer(s: Sys, onRequest: bool, memory: nat) returns (e: Event)
    requires Inv(s) && s.tx.established && s.tx.unprepared != {}
    ensures OwnWork(e, onRequest, memory) && Nearer(s, Step(s, e), onRequest)
  {
    hide RunBytes, S.OnWire, R.Inv, Insert;
    var num :| num in s.tx.unprepared;
    e := Send(S.Prepare(num, 0, true));
  }

  lemma SendNearer(s: Sys, onRequest: bool, memory: nat) returns (e: Event)
    requires Inv(s) && s.tx.established && s.tx.tx.Run() != [] && (s.tx.tx.armed || s.tx.due)
    ensures OwnWork(e, onRequest, memory) && Nearer(s, Step(s, e), onRequest)
  {
    hide RunBytes, S.OnWire, S.Placed, R.Inv;
    var n := |s.tx.tx.Run()|;
    e := Send(if s.tx.tx.armed then S.Writable(n, true) else S.Created(n, true));
  }

  lemma ReadNearer(s: Sys, onRequest: bool, memory: nat) returns (e: Event)
    requires Inv(s) && s.tx.established && !S.Stuck(s.tx, onRequest)
    requires !s.rx.closed && Concat(s.rx.chunks) != s.tx.wire
    ensures OwnWork(e, onRequest, memory) && Nearer(s, Step(s, e), onRequest)
  {
    hide RunBytes, S.Inv, S.Stuck, R.Inv;
    var read := |Concat(s.rx.chunks)|;
    var k := if |s.tx.wire| - read < Receiver.BUF_SIZE then |s.tx.wire| - read else Receiver.BUF_SIZE;
    var chunk := s.tx.wire[read..read + k];
    e := Arrive(k);
    ConcatSplits(s.rx.chunks, [chunk]);
    assert Concat([chunk]) == chunk;
  }

  lemma CompleteNearer(s: Sys, onRequest: bool, memory: nat) returns (e: Event)
    requires Inv(s) && s.tx.established && !S.Stuck(s.tx, onRequest) && !s.rx.closed && s.rx.inFlight != {}
    ensures OwnWork(e, onRequest, memory) && Nearer(s, Step(s, e), onRequest)
  {
    hide RunBytes, S.Inv, S.Stuck, R.Parsing, Content, Parse, Receiver.Rx.Push, Receiver.Rx.Unpack;
    var num :| num in s.rx.inFlight;
    e := Event.Complete(num, memory);
  }

  lemma EstablishNearer(s: Sys, onRequest: bool, memory: nat) returns (e: Event)
    requires Inv(s) && !s.tx.established && !S.Stuck(s.tx, onRequest)
    ensures OwnWork(e, onRequest, memory) && Nearer(s, Step(s, e), onRequest)
  {
    hide RunBytes, S.Placed, S.OnWire, R.Inv;
    e := Send(S.Establish(onRequest));
  }

  /** Unless the sender is stuck, as long as not all is settled there is something to do that gets nearer to it
    * and does not get it stuck. */
  lemma NextEvent(s: Sys, onRequest: bool, memory: nat) returns (e: Event)
    requires Inv(s) && !S.Stuck(s.tx, onRequest) && !Settled(s)
    ensures OwnWork(e, onRequest, memory) && Nearer(s, Step(s, e), onRequest)
  {
    hide Step, Nearer, OwnWork, S.Placed, S.OnWire, S.Watched, R.Inv, RunBytes, RunLen;
    if !s.tx.established {
      e := EstablishNearer(s, onRequest, memory);
    } else if s.tx.unprepared != {} {
      e := PrepareNearer(s, onRequest, memory);
    } else if s.tx.tx.Run() != [] {
      e := SendNearer(s, onRequest, memory);
    } else if Concat(s.rx.chunks) != s.tx.wire && !s.rx.closed {
      e := ReadNearer(s, onRequest, memory);
    } else {
      NothingToSend(s.tx);
      e := CompleteNearer(s, onRequest, memory);
    }
  }

  lemma NothingToSend(s: S.Ss)
    requires S.Inv(s)
    ensures s.tx.Run() == [] <==> RunLen(s.tx.list, s.tx.lastSent) == 0
  {
    hide RunBytes, S.Placed, S.Watched;
    RunStep(s.tx.list, s.tx.lastSent);
  }

  /** Every run in which the sender is not stuck goes on, without a new packet, to a state in which all is
    * settled; even if the poller has failed before. */
  lemma {:induction false} CanSettle(es: seq<Event>, onRequest: bool, memory: nat) returns (more: seq<Event>)
    requires !S.Stuck(Run(es).tx, onRequest)
    ensures Settled(Run(es + more)) && Run(es + more).tx.submitted == Run(es).tx.submitted
    ensures forall e :: e in more ==> OwnWork(e, onRequest, memory)
    decreases !Run(es).tx.established, |Run(es).tx.unprepared|, |Run(es).tx.tx.Run()|, Unread(Run(es)),
              |Run(es).rx.inFlight|
  {
    hide Run, Step, Settled, Inv, RunBytes, S.Stuck, OwnWork;
    RunInv(es);
    if Settled(Run(es)) {
      more := [];
      assert es + more == es;
    } else {
      var e := NextEvent(Run(es), onRequest, memory);
      RunMore(es, e);
      var rest := CanSettle(es + [e], onRequest, memory);
      more := [e] + rest;
      assert es + more == es + [e] + rest;
    }
  }

  /** Once the sender is stuck, nothing but a new packet changes that. */
  lemma {:induction false} StuckForEver(es: seq<Event>, onRequest: bool, memory: nat, more: seq<Event>)
    requires S.Stuck(Run(es).tx, onRequest) && forall e :: e in more ==> OwnWork(e, onRequest, memory)
    ensures S.Stuck(Run(es + more).tx, onRequest) && Run(es + more).tx.wire == Run(es).tx.wire
    decreases |more|
  {
    hide Run, S.Stuck, S.Step;
    if |more| == 0 {
      assert es + more == es;
    } else {
      var before, e := more[..|more| - 1], more[|more| - 1];
      StuckForEver(es, onRequest, memory, before);
      assert es + more == es + before + [e] && e in more;
      RunMore(es + before, e);
      if e.Send? {
        S.StuckStays(Run(es + before).tx, onRequest, e.e);
      }
    }
  }

  /** So what was submitted can be settled, without a new packet, exactly if the sender is not stuck. */
  lemma CanSettleIff(es: seq<Event>, onRequest: bool, memory: nat)
    ensures !S.Stuck(Run(es).tx, onRequest)
      <==> exists more :: (forall e :: e in more ==> OwnWork(e, onRequest, memory)) && Settled(Run(es + more))
  {
    hide Run, Settled, Inv, S.Stuck, OwnWork;
    if !S.Stuck(Run(es).tx, onRequest) {
      var more := CanSettle(es, onRequest, memory);
    } else {
      forall more | forall e :: e in more ==> OwnWork(e, onRequest, memory)
        ensures !Settled(Run(es + more))
      {
        StuckForEver(es, onRequest, memory, more);
        RunInv(es + more);
        StuckUnsettled(Run(es + more), onRequest);
      }
    }
  }

  lemma StuckUnsettled(s: Sys, onRequest: bool)
    requires Inv(s) && S.Stuck(s.tx, onRequest)
    ensures !Settled(s)
  {
    hide S.Inv, R.Inv, RunLen, RunBytes;
    NothingToSend(s.tx);
  }

  /** So whatever was submitted can still come out, up to the first body too big for any message buffer, as long
    * as the sender is not stuck and the memory cache has not failed. */
  lemma CanDeliver(es: seq<Event>, onRequest: bool) returns (more: seq<Event>)
    requires !S.Stuck(Run(es).tx, onRequest) && Generous(es, |Run(es).tx.submitted|)
    ensures var s := Run(es + more);
      && s.tx.submitted == Run(es).tx.submitted
      && s.rx.rx.out == Receiver.Numbered(s.tx.submitted[..Fitting(s.tx.submitted)], 0)
  {
    hide Run, Settled, Fitting, S.Stuck;
    var n := |Run(es).tx.submitted|;
    more := CanSettle(es, onRequest, n + 1);
    StillGenerous(es, more, onRequest, n);
    AllDelivered(es + more);
  }

  lemma StillGenerous(es: seq<Event>, more: seq<Event>, onRequest: bool, n: nat)
    requires Generous(es, n) && forall e :: e in more ==> OwnWork(e, onRequest, n + 1)
    ensures Generous(es + more, n)
  {
    forall i | 0 <= i < |es + more| && (es + more)[i].Complete?
      ensures (es + more)[i].memory > n
    {
      if i >= |es| {
        assert (es + more)[i] in more;
      }
    }
  }

  // ----- a body no message buffer is big enough for

  /** The sender takes it, numbers it and sends it in full. The receiver fails as soon as it has read the header,
    * whatever the supply of message buffers, and the body never comes out. */
  lemma BigBodyLost(body: seq<byte>, memory: nat)
    requires FitsBuffer(|body|) && !FitsMessage(|body|)
    ensures var s := Run([Send(S.Submit(body)), Send(S.Establish(false)), Send(S.Prepare(1, |Frame(body)|, true)),
                          Arrive(Receiver.BUF_SIZE), Event.Complete(1, memory)]);
      && s.tx.submitted == [body] && s.tx.wire == Frame(body) && s.tx.tx.lastSent == 1
      && Settled(s) && s.rx.closed && s.rx.rx.out == []
  {
    hide Run, Step, Frame, Parse, Settled;
    var e1, e2, e3 := Send(S.Submit(body)), Send(S.Establish(false)), Send(S.Prepare(1, |Frame(body)|, true));
    RunMore([], e1);
    RunMore([e1], e2);
    RunMore([e1, e2], e3);
    RunMore([e1, e2, e3], Arrive(Receiver.BUF_SIZE));
    RunMore([e1, e2, e3, Arrive(Receiver.BUF_SIZE)], Event.Complete(1, memory));
    assert [] + [e1] == [e1] && [e1] + [e2] == [e1, e2] && [e1, e2] + [e3] == [e1, e2, e3];
    assert [e1, e2, e3] + [Arrive(Receiver.BUF_SIZE)] == [e1, e2, e3, Arrive(Receiver.BUF_SIZE)];
    assert [e1, e2, e3, Arrive(Receiver.BUF_SIZE)] + [Event.Complete(1, memory)]
        == [e1, e2, e3, Arrive(Receiver.BUF_SIZE), Event.Complete(1, memory)];
    BigBodySent(body);
    BigBodyRead(body, memory);
  }

  /** The sender with the packet out. */
  function Out(body: seq<byte>): S.Ss {
    S.Ss(Tx(1, 2, 1, [], false), [body], {}, Frame(body), true, false, false, false, true)
  }

  lemma BigBodySent(body: seq<byte>)
    requires FitsBuffer(|body|)
    ensures var s1 := Step(Run([]), Send(S.Submit(body)));
      var s2 := Step(s1, Send(S.Establish(false)));
      Step(s2, Send(S.Prepare(1, |Frame(body)|, true))) == Sys(Out(body), R.INIT)
  {
    hide Frame, RunBytes;
    var s1 := S.Step(S.INIT, S.Submit(body));
    RunStep([], 0);
    RunStep([], 1);
    assert s1 == S.Ss(Tx(1, 2, 0, [], false), [body], {1}, [], false, false, false, false, false);
    var s2 := S.Step(s1, S.Establish(false));
    assert s2 == s1.(established := true);
    var s3 := s2.Push(1);
    var list := [Entry(1, Full(Frame(body)))];
    assert s3.tx.list == list && list[1..] == [];
    RunStep(list, 0);
    assert s3.tx.Run() == Frame(body);
    ConsumeHead(s3.tx, |Frame(body)|);
  }

  lemma BigBodyRead(body: seq<byte>, memory: nat)
    requires FitsBuffer(|body|) && !FitsMessage(|body|)
    ensures var s := Step(Step(Sys(Out(body), R.INIT), Arrive(Receiver.BUF_SIZE)), Event.Complete(1, memory));
      s.tx == Out(body) && Settled(s) && s.rx.closed && s.rx.rx.out == []
  {
    hide Frame, RunBytes, FrontOf;
    var chunk := Frame(body)[..Receiver.BUF_SIZE];
    assert Out(body).wire[0..Receiver.BUF_SIZE] == chunk;
    var r1 := R.INIT.Read(chunk);
    assert Step(Sys(Out(body), R.INIT), Arrive(Receiver.BUF_SIZE)) == Sys(Out(body), r1);
    var list := [Entry(1, Full(chunk))];
    assert r1.rx.Push(1, Full(r1.chunks[0])).list == list && list[1..] == [];
    RunStep(list, 0);
    RunStep([], 1);
    FrontOfFrame(body, chunk, memory);
    var pushed := r1.rx.Push(1, Full(chunk));
    assert pushed.Run() == chunk && Parse(chunk, memory) == Parsed([], chunk, NoMemory);
    assert r1.CanComplete(1) && R.Step(r1, R.Event.Complete(1, memory)) == r1.Complete(1, memory);
    assert pushed.Unpack(memory).out == [];
  }
}
