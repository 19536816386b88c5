/** Whole runs of the receiving half: buffers are read in order, complete in any order, and every call of
  * RecvPacket parses the contiguous run from scratch. Over the run the messages handed on are those of one
  * pass over the concatenated bytes. */
module ReceiveRun {
  import opened LittleEndian
  import opened Wire
  import opened SortedList
  import opened Buffers
  import opened Receiver
  import opened Sockets
  import opened Streams

  /** chunks[i] is what RecvData read into buffer number i + 1; inFlight are the buffers read whose
    * RecvPacket has not been called yet; closed tells that a call returned an error. */
  datatype Rs = Rs(rx: Rx, chunks: seq<seq<byte>>, inFlight: set<nat>, closed: bool)
  {
    predicate CanRead(chunk: seq<byte>) { !closed && 0 < |chunk| <= BUF_SIZE }

    function Read(chunk: seq<byte>): Rs {
      var num := rx.recvIndex + 1;
      Rs(rx.(recvIndex := num, posted := rx.posted + 1), chunks + [chunk], inFlight + {num}, false)
    }

    predicate CanComplete(num: nat) {
      !closed && num in inFlight && 0 < num <= |chunks| && rx.posted > 0 && rx.Counted()
    }

    function Complete(num: nat, memory: nat): Rs
      requires CanComplete(num)
    {
      var pushed := rx.Push(num, Full(chunks[num - 1]));
      Rs(pushed.Unpack(memory), chunks, inFlight - {num}, Code(Parse(pushed.Run(), memory).status) != 0)
    }

    // how many leading buffers have arrived without a gap, and their bytes
    function Reached(): nat { rx.last + RunLen(rx.list, rx.last) }

    function Stream(): seq<byte>
      requires Reached() <= |chunks|
    {
      Concat(chunks[..Reached()])
    }
  }

  const INIT := Rs(Rx(0, 0, 0, 0, 0, 0, [], []), [], {}, false)

  function Bodies(ms: seq<Message>): (bs: seq<seq<byte>>)
    ensures |bs| == |ms|
  {
    seq(|ms|, i requires 0 <= i < |ms| => ms[i].body)
  }

  // ----- the invariant

  /** The four counters tell apart where every buffer read so far is. */
  ghost predicate Ledger(s: Rs) {
    && s.rx.recvIndex == |s.chunks|
    && s.rx.posted == |s.inFlight|
    && s.rx.inList == |s.rx.list|
    && s.rx.queued == |s.rx.out|
    && s.rx.recvIndex == s.rx.posted + s.rx.inList + s.rx.last
  }

  /** Every number issued is processed, listed or in flight, and only one of these. */
  ghost predicate Placed(s: Rs) {
    && Increasing(s.rx.list)
    && s.rx.last <= |s.chunks|
    && (forall i :: 0 <= i < |s.rx.list| ==> s.rx.last < s.rx.list[i].num <= |s.chunks|)
    && (forall n :: n in s.inFlight ==> s.rx.last < n <= |s.chunks| && !Has(s.rx.list, n))
    && (forall n: nat :: s.rx.last < n <= |s.chunks| ==> n in s.inFlight || Has(s.rx.list, n))
  }

  /** With m message buffers one pass over the stream finds just the messages, and a reason to stop. */
  ghost predicate StoppedAt(s: Rs, m: nat)
    requires s.Reached() <= |s.chunks|
  {
    Bodies(s.rx.out) == Parse(s.Stream(), m).bodies && Parse(s.Stream(), m).status != NeedMore
  }

  /** The messages are those of one pass over the stream, numbered from 1; the run is that pass's leftover. */
  ghost predicate Parsing(s: Rs)
    requires s.Reached() <= |s.chunks|
  {
    && s.rx.out == Numbered(Bodies(s.rx.out), 0)
    && if s.closed then exists m :: StoppedAt(s, m)
       else s.rx.unpacked == |s.rx.out| &&
            forall m :: m > |s.rx.out| ==> Parse(s.Stream(), m) == Parsed(Bodies(s.rx.out), s.rx.Run(), NeedMore)
  }

  ghost predicate Inv(s: Rs) {
    && Ledger(s) && Placed(s) && Content(s.rx.list, s.rx.last, s.chunks)
    && AllLeft(s.rx.list) && (forall i :: 0 <= i < |s.chunks| ==> |s.chunks[i]| > 0)
    && s.Reached() <= |s.chunks|
    && Parsing(s)
  }

  lemma InitInv()
    ensures Inv(INIT)
  {
    hide Parsing, RunBytes;
    assert Ledger(INIT) && Placed(INIT) && Content(INIT.rx.list, INIT.rx.last, INIT.chunks);
    InitParsing();
  }

  lemma NothingRead()
    ensures INIT.rx.Run() == [] && INIT.Reached() == 0
  {
    assert INIT.rx.list[..0] == [];
  }

  lemma InitParsing()
    ensures Parsing(INIT)
  {
    hide Parse, RunBytes;
    assert INIT.chunks[..0] == [];
    NothingRead();
    assert Numbered(Bodies([]), 0) == [];
    forall m: nat | m > 0
      ensures Parse([], m) == Parsed([], [], NeedMore)
    {
      ParsePiece([], [], m);
    }
  }

  lemma ReadInv(s: Rs, chunk: seq<byte>)
    requires Inv(s) && s.CanRead(chunk)
    ensures Inv(s.Read(chunk))
  {
    hide RunBytes, Parse, RunLen;
    var t := s.Read(chunk);
    assert t.chunks[..t.Reached()] == s.chunks[..s.Reached()];
    assert Ledger(t);
    ContentGrows(s.rx.list, s.rx.last, s.chunks, t.chunks);
    assert t.Stream() == s.Stream() && t.rx.Run() == s.rx.Run();
  }

  // ----- a buffer completes: the run is unpacked

  lemma OutGrows(out: seq<Message>, bodies: seq<seq<byte>>)
    requires out == Numbered(Bodies(out), 0)
    ensures var out1 := out + Numbered(bodies, |out|);
      Bodies(out1) == Bodies(out) + bodies && out1 == Numbered(Bodies(out1), 0)
  {
    var out1 := out + Numbered(bodies, |out|);
    assert forall i :: 0 <= i < |out| ==> out1[i] == out[i] && out[i].num == i + 1;
  }

  lemma CompletePlaced(s: Rs, num: nat, memory: nat)
    requires Inv(s) && s.CanComplete(num)
    ensures var t := s.Complete(num, memory);
      && Placed(t) && Content(t.rx.list, t.rx.last, t.chunks) && AllLeft(t.rx.list) && t.Reached() <= |t.chunks|
  {
    hide Insert, RunBytes, Drop, Parse, Content, Parsing, RunLen, Ledger, Increasing, Has;
    var e := Entry(num, Full(s.chunks[num - 1]));
    var pushed := s.rx.Push(num, e.item);
    var c := |pushed.Run()| - |Parse(pushed.Run(), memory).rest|;
    var list1 := pushed.list;
    InsertFresh(s.rx.list, e);
    InsertNonEmpty(s.rx.list, e);
    PushContent(s.rx.list, s.rx.last, s.chunks, e);
    PushRun(s.rx.list, s.rx.last, s.chunks, num);
    DropRun(list1, s.rx.last, c);
    DropRunLen(list1, s.rx.last, c);
    DropNonEmpty(list1, c);
    ConsumeContent(list1, s.rx.last, c, s.chunks);
    ConsumeNums(list1, s.rx.last, c);
    var t := s.Complete(num, memory);
    StillPlaced(s, t, num, list1);
    ContentNums(t.rx.list, t.rx.last, t.chunks);
  }

  lemma CompleteLedger(s: Rs, num: nat, memory: nat)
    requires Inv(s) && s.CanComplete(num)
    ensures Ledger(s.Complete(num, memory))
  {
    hide Insert, RunBytes, Drop, Parse, Content, Parsing, RunLen, Increasing, Has;
    InsertFresh(s.rx.list, Entry(num, Full(s.chunks[num - 1])));
  }

  // the numbers in flight and in the list, before and after
  lemma StillPlaced(s: Rs, t: Rs, num: nat, list1: BufList)
    requires Placed(s) && t.chunks == s.chunks && t.inFlight == s.inFlight - {num} && num in s.inFlight
    requires forall n :: Has(list1, n) <==> Has(s.rx.list, n) || n == num
    requires forall n :: n > s.rx.last && !Has(list1, n) ==> n > t.rx.last
    requires forall n :: n > t.rx.last ==> (Has(t.rx.list, n) <==> Has(list1, n))
    requires s.rx.last <= t.rx.last
    ensures forall n :: n in t.inFlight ==> t.rx.last < n <= |t.chunks| && !Has(t.rx.list, n)
    ensures forall n: nat :: t.rx.last < n <= |t.chunks| ==> n in t.inFlight || Has(t.rx.list, n)
  {
    hide Increasing, Has;
    forall n | n in t.inFlight
      ensures t.rx.last < n <= |t.chunks| && !Has(t.rx.list, n)
    {
      assert Has(list1, n) <==> Has(s.rx.list, n) || n == num;
    }
    forall n: nat | t.rx.last < n <= |t.chunks|
      ensures n in t.inFlight || Has(t.rx.list, n)
    {
      assert Has(list1, n) <==> Has(s.rx.list, n) || n == num;
    }
  }

  // how far the run reaches once buffer num has been sorted in, and the bytes this adds to the stream
  function ReachedWith(s: Rs, num: nat): nat
    requires s.CanComplete(num)
  {
    s.rx.last + RunLen(Insert(s.rx.list, Entry(num, Full(s.chunks[num - 1]))), s.rx.last)
  }

  function Added(s: Rs, num: nat): (b: seq<byte>)
    requires s.CanComplete(num) && s.Reached() <= ReachedWith(s, num) <= |s.chunks|
  {
    Concat(s.chunks[s.Reached()..ReachedWith(s, num)])
  }

  lemma PushStream(s: Rs, num: nat)
    requires Inv(s) && s.CanComplete(num)
    ensures s.Reached() <= ReachedWith(s, num) <= |s.chunks|
    ensures s.rx.Push(num, Full(s.chunks[num - 1])).Run() == s.rx.Run() + Added(s, num)
    ensures Concat(s.chunks[..ReachedWith(s, num)]) == s.Stream() + Added(s, num)
  {
    hide Insert, RunBytes, Content, Parsing, RunLen, Increasing;
    PushRun(s.rx.list, s.rx.last, s.chunks, num);
    ConcatSlices(s.chunks, 0, s.Reached(), ReachedWith(s, num));
    assert s.chunks[0..ReachedWith(s, num)] == s.chunks[..ReachedWith(s, num)];
    assert s.chunks[0..s.Reached()] == s.chunks[..s.Reached()];
  }

  lemma CompleteStream(s: Rs, num: nat, memory: nat)
    requires Inv(s) && s.CanComplete(num)
    ensures s.Complete(num, memory).Reached() == ReachedWith(s, num)
  {
    hide Insert, RunBytes, Drop, Parse, RunLen, Inv;
    var pushed := s.rx.Push(num, Full(s.chunks[num - 1]));
    DropRunLen(pushed.list, s.rx.last, |pushed.Run()| - |Parse(pushed.Run(), memory).rest|);
  }

  /** A buffer that completes: parsing resumes where it stopped. */
  lemma CompleteParses(s: Rs, num: nat, memory: nat)
    requires Inv(s) && s.CanComplete(num)
    ensures var t, n := s.Complete(num, memory), |s.rx.out|;
      && t.Reached() <= |t.chunks|
      && Bodies(t.rx.out) == Parse(t.Stream(), n + memory).bodies && t.rx.out == Numbered(Bodies(t.rx.out), 0)
      && (t.closed <==> Parse(t.Stream(), n + memory).status != NeedMore)
      && (!t.closed ==> Parse(t.Stream(), n + memory).rest == t.rx.Run() && t.rx.unpacked == |t.rx.out|)
  {
    hide Insert, RunBytes, Drop, Parse, RunLen, Content, Placed, Ledger, Rx.Consume;
    PushStream(s, num);
    CompleteStream(s, num, memory);
    var t := s.Complete(num, memory);
    var b, run := Added(s, num), s.rx.Run();
    var p := Parse(run + b, memory);
    var bs := Bodies(s.rx.out);
    OutGrows(s.rx.out, p.bodies);
    assert Parse(s.Stream(), |bs| + 1) == Parsed(bs, run, NeedMore);
    ParseResumes(s.Stream(), b, |bs| + 1, memory);
    CodeZero(p.status);
    if p.status == NeedMore {
      ParseLeaves(run + b, memory);
    }
  }

  lemma {:induction false} CompleteInv(s: Rs, num: nat, memory: nat)
    requires Inv(s) && s.CanComplete(num)
    ensures Inv(s.Complete(num, memory))
  {
    hide RunBytes, Parse, RunLen, Content, Placed, Ledger, Rx.Push, Rx.Unpack;
    CompletePlaced(s, num, memory);
    CompleteLedger(s, num, memory);
    CompleteParses(s, num, memory);
    var t, k := s.Complete(num, memory), |s.rx.out| + memory;
    if t.closed {
      assert StoppedAt(t, k);
    } else {
      forall m | m > |t.rx.out|
        ensures Parse(t.Stream(), m) == Parsed(Bodies(t.rx.out), t.rx.Run(), NeedMore)
      {
        EnoughMemory(t.Stream(), k, m);
      }
    }
  }

  lemma CodeZero(st: Status)
    ensures Code(st) == 0 <==> st == NeedMore
  {}

  // ----- runs

  datatype Event = Read(chunk: seq<byte>) | Complete(num: nat, memory: nat)

  /** Events that cannot happen in a state change nothing. */
  function Step(s: Rs, e: Event): Rs {
    match e
    case Read(chunk) => if s.CanRead(chunk) then s.Read(chunk) else s
    case Complete(num, memory) => if s.CanComplete(num) then s.Complete(num, memory) else s
  }

  function Run(es: seq<Event>): Rs {
    if |es| == 0 then INIT else Step(Run(es[..|es| - 1]), es[|es| - 1])
  }

  lemma {:induction false} RunInv(es: seq<Event>)
    ensures Inv(Run(es))
  {
    hide Inv;
    if |es| == 0 {
      InitInv();
    } else {
      var s := Run(es[..|es| - 1]);
      RunInv(es[..|es| - 1]);
      match es[|es| - 1] {
        case Read(chunk) => if s.CanRead(chunk) { ReadInv(s, chunk); }
        case Complete(num, memory) => if s.CanComplete(num) { CompleteInv(s, num, memory); }
      }
    }
  }

  /** However the stream is cut into buffers, in whatever order these complete, and although every call
    * parses from scratch: as long as no call failed, the messages are those of one pass over the bytes of
    * the buffers that have arrived without a gap, numbered 1, 2, 3, ..., and nothing complete is left over. */
  lemma {:induction false} OnePass(es: seq<Event>)
    requires !Run(es).closed
    ensures var s := Run(es);
      && s.Reached() <= |s.chunks|
      && var p := Parse(s.Stream(), |s.rx.out| + 1);
         p.status == NeedMore && s.rx.out == Numbered(p.bodies, 0) && s.rx.Run() == p.rest
  {
    hide Parse, Ledger, Placed, Content, Run;
    RunInv(es);
  }

  /** Buffer numbers are gap-free and each is in one place: processed, listed or in flight. */
  lemma {:induction false} BufferLedger(es: seq<Event>)
    ensures var s := Run(es);
      && s.rx.recvIndex == s.rx.posted + s.rx.inList + s.rx.last
      && s.rx.inList == |s.rx.list| && s.rx.posted == |s.inFlight| && s.rx.queued == |s.rx.out|
      && Increasing(s.rx.list)
      && (forall n: nat :: Has(s.rx.list, n) ==> s.rx.last < n <= s.rx.recvIndex && n !in s.inFlight)
      && (forall n :: n in s.inFlight ==> s.rx.last < n <= s.rx.recvIndex)
      && (forall n: nat :: s.rx.last < n <= s.rx.recvIndex ==> n in s.inFlight || Has(s.rx.list, n))
  {
    hide Parsing, Content, Run;
    RunInv(es);
  }

  // ----- when a call does not return

  /** In every state that can be reached: a call of RecvPacket follows a null pointer exactly if the bytes that
    * have arrived without a gap then end with a packet whose check sum is wrong, the first one found in them, and
    * every buffer behind the gap is still in flight. */
  lemma FaultExactly(es: seq<Event>, num: nat, memory: nat)
    requires Run(es).CanComplete(num)
    ensures var s, t := Run(es), Run(es).Complete(num, memory);
      && t.Reached() <= |t.chunks|
      && var p := Parse(t.Stream(), |s.rx.out| + memory);
         s.rx.Push(num, Full(s.chunks[num - 1])).Faults(memory) <==>
           && p.status == BadSum && p.rest == []
           && forall n :: t.Reached() < n <= |t.chunks| ==> n in t.inFlight
  {
    hide Run, Inv, Parse, Rx.Faults, Rx.Push, Rs.Complete, RunBytes, RunLen, Has;
    RunInv(es);
    var s := Run(es);
    var pushed := s.rx.Push(num, Full(s.chunks[num - 1]));
    PushedLeft(s, num);
    FaultsIff(pushed, memory);
    WholeParse(s, num, memory);
    NothingBehind(s, num, memory);
  }

  lemma PushedLeft(s: Rs, num: nat)
    requires Inv(s) && s.CanComplete(num)
    ensures AllLeft(s.rx.Push(num, Full(s.chunks[num - 1])).list)
    ensures var pushed := s.rx.Push(num, Full(s.chunks[num - 1]));
      && pushed.Counted() && pushed.last == s.rx.last
      && pushed.list == Insert(s.rx.list, Entry(num, Full(s.chunks[num - 1])))
  {
    hide Insert, Parsing, Content, Placed, Ledger;
    InsertNonEmpty(s.rx.list, Entry(num, Full(s.chunks[num - 1])));
    InsertGrows(s.rx.list, Entry(num, Full(s.chunks[num - 1])));
  }

  /** The parser's verdict on the run is its verdict on the whole stream. */
  lemma WholeParse(s: Rs, num: nat, memory: nat)
    requires Inv(s) && s.CanComplete(num)
    ensures var t, p := s.Complete(num, memory), Parse(s.rx.Push(num, Full(s.chunks[num - 1])).Run(), memory);
      && t.Reached() <= |t.chunks|
      && Parse(t.Stream(), |s.rx.out| + memory).status == p.status
      && Parse(t.Stream(), |s.rx.out| + memory).rest == p.rest
  {
    hide Parse, RunBytes, Insert, Placed, Ledger, Content, Drop, RunLen;
    PushStream(s, num);
    CompleteStream(s, num, memory);
    assert Parse(s.Stream(), |s.rx.out| + 1) == Parsed(Bodies(s.rx.out), s.rx.Run(), NeedMore);
    ParseResumes(s.Stream(), Added(s, num), |s.rx.out| + 1, memory);
  }

  lemma NothingBehind(s: Rs, num: nat, memory: nat)
    requires Inv(s) && s.CanComplete(num)
    ensures var list, t := Insert(s.rx.list, Entry(num, Full(s.chunks[num - 1]))), s.Complete(num, memory);
      RunLen(list, s.rx.last) == |list| <==> forall n :: t.Reached() < n <= |t.chunks| ==> n in t.inFlight
  {
    hide Insert, Parse, RunBytes, Drop, Content, Parsing, Ledger, RunLen, Increasing, Has;
    var e := Entry(num, Full(s.chunks[num - 1]));
    InsertFresh(s.rx.list, e);
    CompleteStream(s, num, memory);
    PushStream(s, num);
    ListedAfter(s);
    var list := Insert(s.rx.list, e);
    BehindRun(list, s.rx.last);
    forall n: nat | s.rx.last + RunLen(list, s.rx.last) < n <= |s.chunks|
      ensures Has(list, n) <==> n !in s.inFlight - {num}
    {
      assert Has(list, n) <==> Has(s.rx.list, n) || n == num;
    }
  }

  lemma ListedAfter(s: Rs)
    requires Placed(s)
    ensures forall n: nat :: Has(s.rx.list, n) ==> s.rx.last < n <= |s.chunks|
  {}

  lemma BehindRun(list: BufList, last: nat)
    requires Increasing(list) && forall n: nat :: Has(list, n) ==> n > last
    ensures var k := RunLen(list, last);
      && (k < |list| ==> Has(list, list[k].num) && list[k].num > last + k)
      && (k == |list| ==> forall n: nat :: Has(list, n) ==> n <= last + k)
  {
    var k := RunLen(list, last);
    if k < |list| {
      assert Has(list, list[k].num);
      if k > 0 {
        assert list[k - 1].num < list[k].num;
      }
    }
  }

  // ----- the methods and the events

  /** RecvData is a Read event with what it read, or none if it read nothing. */
  method ReadStep(side: ReceiveSide, sock: Socket, haveBuffer: bool, ghost s: Rs)
    returns (n: Node?<Buf>, ret: int, ghost t: Rs)
    requires side.Valid() && side.Value() == s.rx && Inv(s) && !s.closed
    modifies sock`script, sock`incoming, side`recvIndex, side`posted
    ensures side.Valid() && side.Value() == t.rx
    ensures n == null ==> t == s
    ensures n != null ==> s.CanRead(n.item.data) && t == Step(s, Read(n.item.data))
    ensures n != null ==> t.CanComplete(n.num) && n.item == Full(t.chunks[n.num - 1])
  {
    hide List.Valid, Placed, Content, Parsing;
    n, ret := side.RecvData(sock, haveBuffer);
    t := if n == null then s else s.Read(n.item.data);
  }

  /** RecvPacket is a Complete event; the connection fails if it returns an error, or if it does not return. */
  method CompleteStep(side: ReceiveSide, n: Node<Buf>, memory: nat, ghost s: Rs)
    returns (ret: int, fault: bool, ghost t: Rs)
    requires side.Valid() && side.Value() == s.rx && n !in side.list.nodes
    requires s.CanComplete(n.num) && n.item == Full(s.chunks[n.num - 1])
    modifies side, side.list, n, side.list.Cells()
    ensures side.Valid() && side.Value() == t.rx
    ensures t == Step(s, Event.Complete(n.num, memory))
    ensures t.closed <==> fault || ret != 0
  {
    hide List.Valid, Parse, Rx.Push, Rx.Unpack;
    t := s.Complete(n.num, memory);
    ret, fault := side.RecvPacket(n, memory);
  }
}
