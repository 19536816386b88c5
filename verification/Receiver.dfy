/** The receiving half of a connection: buffers read from the socket are numbered, may complete in any
  * order, and are cut into messages as soon as they form a contiguous run. */
module Receiver {
  import opened LittleEndian
  import opened Wire
  import opened SortedList
  import opened Buffers
  import opened Sockets

  // CX_BUF_SIZE
  const BUF_SIZE: nat := 4096

  datatype Message = Message(num: nat, body: seq<byte>)

  function Numbered(bodies: seq<seq<byte>>, from: nat): (ms: seq<Message>)
    ensures |ms| == |bodies|
  {
    seq(|bodies|, i requires 0 <= i < |bodies| => Message(from + 1 + i, bodies[i]))
  }

  /** The receiver's fields as a value: m_uiRecvBufferIndex, m_uiPostedRecvBuffers,
    * m_uiNumberOfReceivedBufferInList, m_uiLastProcessBufferIndex, m_iLastUnpackedMessageSequenceNum,
    * m_uiNumberOfReceivedPacketInQueue, the sorted buffer list, and the messages handed to the workers. */
  datatype Rx = Rx(recvIndex: nat, posted: nat, inList: nat, last: nat, unpacked: nat, queued: nat,
                   list: BufList, out: seq<Message>)
  {
    predicate Counted() { |list| <= inList }

    function Run(): seq<byte> { RunBytes(list, last) }

    /** PushReceivedBuffer: the two counters change even when the list drops the buffer. */
    function Push(num: nat, buf: Buf): (rx: Rx)
      requires Counted() && posted > 0
      ensures rx.Counted()
    {
      this.(list := Insert(list, Entry(num, buf)), inList := inList + 1, posted := posted - 1)
    }

    /** The first c bytes of the run are done with. */
    function Consume(c: nat): (rx: Rx)
      requires Counted() && c <= |Run()|
      ensures rx.Counted() && rx.Run() == Run()[c..]
      ensures rx == this.(list := rx.list, last := rx.last, inList := rx.inList)
    {
      DropRun(list, last, c);
      var rest := Drop(list, c);
      this.(list := rest, last := last + (|list| - |rest|), inList := inList - (|list| - |rest|))
    }

    /** All that RecvPacket does after pushing, as one pass over the contiguous run. */
    function Unpack(memory: nat): (rx: Rx)
      requires Counted()
    {
      var p := Parse(Run(), memory);
      Consume(|Run()| - |p.rest|).(unpacked := unpacked + p.Cuts(), queued := queued + |p.bodies|,
                                   out := out + Numbered(p.bodies, unpacked))
    }

    /** The last packet of a call has a wrong check sum and used up all that was listed. */
    predicate Faults(memory: nat)
      requires Counted()
    {
      Parse(Run(), memory).status == BadSum && Unpack(memory).list == []
    }

    /** One round of the loop: the packet at the front of the run, or why there is none. */
    function Cut(f: Front): (rx: Rx)
      requires Counted() && exists m :: f == FrontOf(Run(), m)
      ensures rx.Counted()
    {
      match f
      case Stop(_, used) => Consume(used).(unpacked := if used > 0 then unpacked + 1 else unpacked)
      case Packet(body) =>
        Consume(HEADER_LEN + |body|).(unpacked := unpacked + 1, queued := queued + 1,
                                      out := out + [Message(unpacked + 1, body)])
    }
  }

  /** The value RecvPacket returns. */
  function Code(s: Status): int {
    match s
    case NeedMore => 0
    case NoMemory => -3
    case NoCodec => -6
    case _ => -4
  }

  lemma ConsumeTwice(rx: Rx, c: nat, d: nat)
    requires rx.Counted() && c + d <= |rx.Run()|
    ensures rx.Consume(c).Consume(d) == rx.Consume(c + d)
  {
    hide RunBytes, Drop;
    DropRun(rx.list, rx.last, c + d);
    if d > 0 {
      DropTwice(rx.list, c, d);
    } else {
      DropNothing(Drop(rx.list, c));
    }
  }

  lemma NumberedCons(body: seq<byte>, bodies: seq<seq<byte>>, from: nat)
    ensures Numbered([body] + bodies, from) == [Message(from + 1, body)] + Numbered(bodies, from + 1)
  {}

  /** Round by round or in one pass, the result is the same. */
  lemma {:induction false} UnpackRound(rx: Rx, m: nat)
    requires rx.Counted()
    ensures var f := FrontOf(rx.Run(), m);
      f.Stop? ==> rx.Unpack(m) == rx.Cut(f) && Parse(rx.Run(), m).status == f.status
    ensures var f := FrontOf(rx.Run(), m);
      f.Packet? ==>
        && rx.Unpack(m) == rx.Cut(f).Unpack(m - 1)
        && Parse(rx.Run(), m).status == Parse(rx.Cut(f).Run(), m - 1).status
  {
    hide FrontOf, RunBytes, Drop, Rx.Consume;
    var run, p := rx.Run(), Parse(rx.Run(), m);
    match FrontOf(run, m) {
      case Stop(status, used) =>
        assert rx.out + Numbered([], rx.unpacked) == rx.out;
      case Packet(body) =>
        var c := HEADER_LEN + |body|;
        var q := Parse(run[c..], m - 1);
        NumberedCons(body, q.bodies, rx.unpacked);
        ConsumeTwice(rx, c, |run| - c - |q.rest|);
        SameConsume(rx.Consume(c), rx.Cut(Packet(body)), |run| - c - |q.rest|);
    }
  }

  // consuming looks at the list and its counters only
  lemma SameConsume(a: Rx, b: Rx, c: nat)
    requires a.Counted() && c <= |a.Run()|
    requires b == a.(unpacked := b.unpacked, queued := b.queued, out := b.out)
    ensures b.Consume(c) == a.Consume(c).(unpacked := b.unpacked, queued := b.queued, out := b.out)
  {}

  // ----- the loop over one run of buffers

  predicate Acceptable(s: seq<byte>)
    requires |s| == HEADER_LEN
  {
    var h := DecodeHeader(s);
    h.flag == HEADER_FLAG && h.dataLen <= MAX_CACHE_SIZE
  }

  /** The bytes p of the packet at the front sit in the header buffer and in the message buffer. */
  ghost predicate Filled(header: array<byte>, body: array<byte>, p: seq<byte>)
    reads header, body
  {
    && header.Length == HEADER_LEN <= |p| <= HEADER_LEN + body.Length
    && header[..] == p[..HEADER_LEN]
    && Acceptable(p[..HEADER_LEN])
    && body.Length == DecodeHeader(p[..HEADER_LEN]).dataLen && FitsMessage(body.Length)
    && body[..|p| - HEADER_LEN] == p[HEADER_LEN..]
  }

  /** How far an unfinished packet has been gathered: g holds the bytes seen so far. The message buffer
    * exists once the header is complete. */
  ghost predicate Gathered(header: array<byte>, body: array?<byte>, g: seq<byte>)
    reads header, body
  {
    if body == null then header.Length == HEADER_LEN && |g| < HEADER_LEN && header[..|g|] == g
    else Filled(header, body, g) && |g| < HEADER_LEN + body.Length
  }

  /** Why the loop refuses a packet whose header stands complete at the front of g. */
  predicate Refusal(g: seq<byte>, memory: nat, status: Status) {
    HEADER_LEN <= |g| &&
    var h := DecodeHeader(g[..HEADER_LEN]);
    status == (if h.flag != HEADER_FLAG then BadFlag else if h.dataLen > MAX_CACHE_SIZE then TooLong else NoMemory)
    && (status == NoMemory ==> !CacheServes(MESSAGE_HEAD + h.dataLen, memory))
  }

  /** memcpy of what fits: as much of b's bytes from begin on, at most left, as dst can still take. */
  method CopyPart(dst: array<byte>, at: nat, b: Buf, begin: nat, left: nat) returns (n: nat)
    requires at <= dst.Length && begin + left <= |b.data|
    modifies dst
    ensures n == Min(dst.Length - at, left)
    ensures dst[..at + n] == old(dst[..at]) + b.data[begin..begin + n]
  {
    n := Min(dst.Length - at, left);
    for i := 0 to n
      invariant dst[..at + i] == old(dst[..at]) + b.data[begin..begin + i]
    {
      dst[at + i] := b.data[begin + i];
      assert dst[..at + i + 1] == dst[..at + i] + [b.data[begin + i]];
    }
  }

  /** The outcome for one buffer: it is used up and more is needed, the packet is complete after
    * `taken` of its bytes, or the packet at the front must be refused. */
  datatype Step = More | Complete(taken: nat) | Refused(status: Status)

  /** The loop body for a buffer with bytes left. */
  method TakeFrom(header: array<byte>, body: array?<byte>, b: Buf, ghost g: seq<byte>, used: nat, memory: nat)
    returns (step: Step, body': array?<byte>, used': nat)
    requires Gathered(header, body, g) && used == |g| && b.len > 0
    requires body != null ==> body != header && memory > 0
    modifies header, body
    ensures body' == body || fresh(body')
    ensures body' != null ==> body' != header && memory > 0
    ensures step.More? ==> Gathered(header, body', g + b.Left()) && used' == |g| + b.len
    ensures step.Complete? ==>
      && 0 < step.taken <= b.len && memory > 0 && body' != null
      && Filled(header, body', g + b.Left()[..step.taken])
      && |g| + step.taken == HEADER_LEN + body'.Length
    ensures step.Refused? ==> Refusal(g + b.Left(), memory, step.status)
  {
    hide DecodeHeader;
    var begin, left := b.cur, b.len;
    body', used' := body, used;
    ghost var g1 := g;
    if used' < HEADER_LEN {
      var n := CopyPart(header, used', b, begin, left);
      used', begin, left := used' + n, begin + n, left - n;
      LeftParts(b, 0, n);
      if used' < HEADER_LEN {
        step := More;
        return;
      }
      g1 := g + b.Left()[..n];
    }
    assert g1 == g + b.Left()[..begin - b.cur];
    assert header[..] == g1[..HEADER_LEN];
    assert (g + b.Left())[..HEADER_LEN] == g1[..HEADER_LEN];
    var h := DecodeHeader(header[..]);
    if h.flag != HEADER_FLAG {
      step := Refused(BadFlag);
      return;
    }
    if h.dataLen > MAX_CACHE_SIZE {
      step := Refused(TooLong);
      return;
    }
    if body' == null {
      if !CacheServes(MESSAGE_HEAD + h.dataLen, memory) {
        step := Refused(NoMemory);
        return;
      }
      body' := new byte[h.dataLen];
    }
    assert body'[..used' - HEADER_LEN] == g1[HEADER_LEN..];
    step, used' := FillBody(header, body', b, g, used', begin);
  }

  // the second half of the loop body: the header is complete and acceptable
  method FillBody(header: array<byte>, body: array<byte>, b: Buf, ghost g: seq<byte>, used: nat, begin: nat)
    returns (step: Step, used': nat)
    requires b.cur <= begin <= b.cur + b.len && header != body
    requires Filled(header, body, g + b.Left()[..begin - b.cur]) && used == |g| + begin - b.cur
    requires begin == b.cur ==> used < HEADER_LEN + body.Length && b.len > 0
    modifies body
    ensures !step.Refused?
    ensures step.More? ==> Gathered(header, body, g + b.Left()) && used' == |g| + b.len
    ensures step.Complete? ==>
      && 0 < step.taken <= b.len
      && Filled(header, body, g + b.Left()[..step.taken])
      && |g| + step.taken == HEADER_LEN + body.Length
  {
    hide DecodeHeader, Acceptable;
    ghost var g1 := g + b.Left()[..begin - b.cur];
    var n := CopyPart(body, used - HEADER_LEN, b, begin, b.cur + b.len - begin);
    used' := used + n;
    var taken := begin + n - b.cur;
    LeftParts(b, begin - b.cur, n);
    ghost var p := g1 + b.data[begin..begin + n];
    assert p == g + b.Left()[..taken];
    CutBefore(g1, b.data[begin..begin + n], HEADER_LEN);
    assert Filled(header, body, p);
    if used' < HEADER_LEN + body.Length {
      step := More;
      assert b.Left()[..taken] == b.Left();
    } else {
      step := Complete(taken);
    }
  }

  lemma CutBefore(a: seq<byte>, b: seq<byte>, k: nat)
    requires k <= |a|
    ensures (a + b)[..k] == a[..k] && (a + b)[k..] == a[k..] + b
  {}

  lemma LeftParts(b: Buf, m: nat, n: nat)
    requires m + n <= b.len
    ensures b.Left()[..m + n] == b.Left()[..m] + b.data[b.cur + m..b.cur + m + n]
  {}

  /** What the one-pass parser sees at the front, from the bytes gathered so far. */
  lemma FrontGathered(run: seq<byte>, g: seq<byte>, m: nat)
    requires HEADER_LEN <= |g| && g <= run
    ensures !Acceptable(g[..HEADER_LEN]) ==>
      FrontOf(run, m) == Stop(if DecodeHeader(g[..HEADER_LEN]).flag != HEADER_FLAG then BadFlag else TooLong, 0)
    ensures Acceptable(g[..HEADER_LEN]) && !CacheServes(MESSAGE_HEAD + DecodeHeader(g[..HEADER_LEN]).dataLen, m) ==>
      FrontOf(run, m) == Stop(NoMemory, 0)
    ensures var h := DecodeHeader(g[..HEADER_LEN]);
      Acceptable(g[..HEADER_LEN]) && CacheServes(MESSAGE_HEAD + h.dataLen, m) && g == run
      && |g| < HEADER_LEN + h.dataLen ==>
        FrontOf(run, m) == Stop(NeedMore, 0)
    ensures var h := DecodeHeader(g[..HEADER_LEN]);
      Acceptable(g[..HEADER_LEN]) && CacheServes(MESSAGE_HEAD + h.dataLen, m) && |g| == HEADER_LEN + h.dataLen ==>
        FrontOf(run, m) == (if CheckSum(g[HEADER_LEN..]) != h.checkSum then Stop(BadSum, |g|)
                            else if h.encrypt != 0 || h.compress != 0 then Stop(NoCodec, |g|)
                            else Packet(g[HEADER_LEN..]))
  {
    assert run[..HEADER_LEN] == g[..HEADER_LEN];
    assert run[HEADER_LEN..|g|] == g[HEADER_LEN..];
  }

  class ReceiveSide {
    const list: List<Buf>
    var recvIndex: nat
    var posted: nat
    var inList: nat
    var last: nat
    var unpacked: nat
    var queued: nat
    var out: seq<Message>

    ghost predicate Valid()
      reads this, list, list.nodes
    {
      list.Valid() && Value().Counted()
    }

    ghost function Value(): Rx
      reads this, list, list.nodes
    {
      Rx(recvIndex, posted, inList, last, unpacked, queued, list.Entries(), out)
    }

    constructor ()
      ensures Valid() && fresh(list) && Value() == Rx(0, 0, 0, 0, 0, 0, [], [])
    {
      list := new List();
      recvIndex, posted, inList, last, unpacked, queued, out := 0, 0, 0, 0, 0, 0, [];
    }

    /** Frees the nodes in front of cur. */
    method FreeBefore(cur: Node?<Buf>, ghost k: nat)
      requires Valid() && k <= |list.nodes|
      requires cur == if k < |list.nodes| then list.nodes[k] else null
      modifies this`last, this`inList, list
      ensures Valid() && list.nodes == old(list.nodes)[k..]
      ensures Value() == old(Value()).(list := old(Value().list)[k..], last := old(last) + k, inList := old(inList) - k)
    {
      hide List.Ordered;
      list.Different();
      var dead := list.head;
      ghost var i := 0;
      while dead != null && dead != cur
        invariant i <= k && list.nodes == old(list.nodes)
        invariant list.head == dead == if i < |list.nodes| then list.nodes[i] else null
        invariant list.end == old(list.end)
        invariant last == old(last) + i && inList == old(inList) - i
        decreases k - i
      {
        list.head := dead.next;
        last := last + 1;
        inList := inList - 1;
        dead := list.head;
        i := i + 1;
      }
      if cur == null {
        list.head, list.end := null, null;
      }
      ghost var ns := list.nodes;
      list.nodes := ns[k..];
      list.ValidFrom(ns, k);
      assert list.Entries() == old(list.Entries())[k..];
    }

    // FindPacket, with the list as it stands
    method FindInList(memory: nat)
      returns (step: Step, header: array<byte>, body: array?<byte>, cur: Node?<Buf>, ghost i: nat)
      requires Valid()
      ensures fresh(header) && (body != null ==> fresh(body))
      ensures !step.Complete? ==>
        FrontOf(Value().Run(), memory) == Stop(if step.Refused? then step.status else NeedMore, 0)
      ensures step.Complete? ==>
        && memory > 0 && body != null && i < |list.nodes| && i < RunLen(Value().list, last) && cur == list.nodes[i]
        && cur.item == Value().list[i].item
        && WholePacket(Value().list, i, step.taken, header, body)
    {
      hide FrontOf, WholePacket;
      step, header, body, cur, i := FindPacket(memory, list.Entries());
    }

    /** The loop up to the point where it has a whole packet, has to refuse one, or runs out of buffers. */
    method FindPacket(memory: nat, ghost es: BufList)
      returns (step: Step, header: array<byte>, body: array?<byte>, cur: Node?<Buf>, ghost i: nat)
      requires list.Valid() && es == list.Entries()
      ensures fresh(header) && (body != null ==> fresh(body))
      ensures step.More? ==> FrontOf(RunBytes(es, last), memory) == Stop(NeedMore, 0)
      ensures step.Refused? ==> FrontOf(RunBytes(es, last), memory) == Stop(step.status, 0)
      ensures step.Complete? ==>
        && memory > 0 && body != null && i < RunLen(es, last) && cur == list.nodes[i]
        && WholePacket(es, i, step.taken, header, body)
    {
      hide FrontOf, RunBytes, RunLen, Bytes, Gathered, WholePacket, List.Entries;
      header := new byte[HEADER_LEN];
      body := null;
      var used, packetIndex := 0, last;
      cur, i, step := list.head, 0, More;
      NothingGathered(header, es);
      while cur != null && cur.num == packetIndex + 1
        invariant i <= RunLen(es, last) && packetIndex == last + i
        invariant cur == if i < |list.nodes| then list.nodes[i] else null
        invariant step.More? && used == |Bytes(es[..i])| && Gathered(header, body, Bytes(es[..i]))
        invariant fresh(header) && (body != null ==> fresh(body) && body != header && memory > 0)
        decreases |list.nodes| - i
      {
        EntryAt(es, i);
        step, body, used := TakeBuffer(header, body, cur.item, es, last, i, used, memory);
        if !step.More? {
          return;
        }
        packetIndex := packetIndex + 1;
        cur := cur.next;
        i := i + 1;
      }
      if i < RunLen(es, last) {
        EntryAt(es, i);
      }
      WholeRun(es, last);
      FrontUnfinished(header, body, es, last, memory);
    }

    /** Cuts the packet at the front of the run out of the list, if there is a whole one, and verifies it.
      * fault tells that the code follows a null pointer. */
    method CutFront(memory: nat) returns (front: Front, fault: bool)
      requires Valid()
      modifies this`last, this`inList, this`unpacked, this`queued, this`out, list, list.Cells()
      ensures Valid() && list.Cells() <= old(list.Cells())
      ensures front == FrontOf(old(Value().Run()), memory)
      ensures Value() == old(Value()).Cut(front)
      ensures fault <==> front.Stop? && front.status == BadSum && Value().list == []
    {
      hide FrontOf, RunBytes, Bytes, WholePacket, Rx.Consume, List.Valid;
      ghost var rx := Value();
      var step, header, body, cur, i := FindInList(memory);
      if !step.Complete? {
        front, fault := Stop(if step.Refused? then step.status else NeedMore, 0), false;
        ConsumeNothing(rx);
        return;
      }
      FrontWhole(rx.list, rx.last, i, step.taken, header, body, memory);
      cur := FreeUsed(cur, step.taken, i);
      front, fault := HandOn(cur, header, body);
    }

    /** The packet gets its number, is verified and handed on. The message about a wrong check sum is made
      * with the sequence number of the buffer that is now the current one, if there is one: else a null
      * pointer is followed. */
    method HandOn(cur: Node?<Buf>, header: array<byte>, body: array<byte>) returns (front: Front, fault: bool)
      requires Valid() && header.Length == HEADER_LEN
      modifies this`unpacked, this`queued, this`out
      ensures Valid() && list.nodes == old(list.nodes)
      ensures var h := DecodeHeader(header[..]);
        front == if CheckSum(body[..]) != h.checkSum then Stop(BadSum, HEADER_LEN + body.Length)
                 else if h.encrypt != 0 || h.compress != 0 then Stop(NoCodec, HEADER_LEN + body.Length)
                 else Packet(body[..])
      ensures var rx := old(Value()).(unpacked := old(unpacked) + 1);
        Value() == if !front.Packet? then rx
                   else rx.(queued := rx.queued + 1, out := rx.out + [Message(rx.unpacked, body[..])])
      ensures fault <==> cur == null && CheckSum(body[..]) != DecodeHeader(header[..]).checkSum
    {
      hide List.Valid;
      fault := false;
      unpacked := unpacked + 1;
      var h := DecodeHeader(header[..]);
      var sum := ComputeCheckSum(body[..]);
      if sum != h.checkSum {
        front := Stop(BadSum, HEADER_LEN + body.Length);
        if cur == null {
          fault := true;
          return;
        }
        var culprit := cur.num;
      } else if h.encrypt != 0 || h.compress != 0 {
        front := Stop(NoCodec, HEADER_LEN + body.Length);
      } else {
        front := Packet(body[..]);
        queued := queued + 1;
        out := out + [Message(unpacked, body[..])];
      }
    }

    /** The packet ends `taken` bytes into node i. What is returned becomes the current buffer. */
    method FreeUsed(cur: Node<Buf>, taken: nat, ghost i: nat) returns (next: Node?<Buf>)
      requires Valid() && i < |list.nodes| && cur == list.nodes[i] && 0 < taken <= cur.item.len
      requires |Bytes(list.Entries()[..i])| + taken <= |Value().Run()|
      modifies this`last, this`inList, list, cur
      ensures Valid() && list.Cells() <= old(list.Cells())
      ensures Value() == old(Value()).Consume(|Bytes(old(list.Entries())[..i])| + taken)
      ensures next == if |list.nodes| > 0 then list.nodes[0] else null
    {
      hide Bytes, RunBytes, Rx.Consume, List.Valid, List.Entries;
      EntryAt(list.Entries(), i);
      ConsumeAt(Value(), i, taken);
      AdvanceNode(cur, taken, i);
      next := cur;
      if next.item.len == 0 {
        next := next.next;
        FreeBefore(next, i + 1);
      } else {
        FreeBefore(next, i);
      }
    }

    /** Reads up to one buffer from the socket; a number is used up only if something was read. */
    method RecvData(sock: Socket, haveBuffer: bool) returns (n: Node?<Buf>, ret: int)
      requires Valid()
      modifies sock`script, sock`incoming, this`recvIndex, this`posted
      ensures Valid() && list.nodes == old(list.nodes)
      ensures n == null ==> sock.incoming == old(sock.incoming) && Value() == old(Value())
      ensures n != null ==> fresh(n) && n.num == old(recvIndex) + 1
      ensures n != null ==> n.item == Full(n.item.data) && 0 < |n.item.data| <= 4096
      ensures n != null ==> old(sock.incoming) == n.item.data + sock.incoming
      ensures n != null ==> Value() == old(Value()).(recvIndex := n.num, posted := old(posted) + 1)
      ensures !haveBuffer ==> n == null && ret == -2 && unchanged(sock)
      ensures haveBuffer ==> (ret == 0 <==> n != null && |n.item.data| == 4096)
      ensures haveBuffer ==> Consumed(old(sock.script), sock.script)
      ensures haveBuffer ==> var used, rest := Used(old(sock.script), sock.script), sock.script;
        && ret in {0, -1, -2, -3}
        && (ret == 0 ==> AllCalm(used))
        && (ret == -1 ==> DriedUp(used, rest) || (AllCalm(used) && sock.incoming == []))
        && (ret == -2 ==> EndsWith(used, {PeerReset, Failed}))
        && (ret == -3 ==> EndsWith(used, {PeerClosed}))
    {
      hide List.Valid, Consumed, Used, AllCalm, EndsWith;
      n := null;
      if !haveBuffer {
        ret := -2;
        return;
      }
      recvIndex := recvIndex + 1;
      var data;
      ret, data := ReadBuffer(sock);
      if |data| > 0 {
        posted := posted + 1;
        n := new Node(recvIndex, Full(data));
      } else {
        recvIndex := recvIndex - 1;
      }
    }

    // recv until the buffer is full, nothing is left to read, or the socket breaks
    static method ReadBuffer(sock: Socket) returns (ret: int, data: seq<byte>)
      modifies sock`script, sock`incoming
      ensures old(sock.incoming) == data + sock.incoming && |data| <= 4096 && (ret == 0 <==> |data| == 4096)
      ensures Consumed(old(sock.script), sock.script) && ret in {0, -1, -2, -3}
      ensures var used, rest := Used(old(sock.script), sock.script), sock.script;
        && (ret == 0 ==> AllCalm(used))
        && (ret == -1 ==> DriedUp(used, rest) || (AllCalm(used) && sock.incoming == []))
        && (ret == -2 ==> EndsWith(used, {PeerReset, Failed}))
        && (ret == -3 ==> EndsWith(used, {PeerClosed}))
    {
      hide Consumed, Used, AllCalm, EndsWith;
      ghost var script := sock.script;
      NoneUsed(script);
      data := [];
      var left := BUF_SIZE;
      ret := 0;
      while left > 0
        invariant old(sock.incoming) == data + sock.incoming && |data| + left == BUF_SIZE && left >= 0
        invariant ret == 0
        invariant Consumed(script, sock.script) && AllCalm(Used(script, sock.script))
        decreases left, |sock.script|
      {
        OneUsed(script, sock.script);
        Ends(Used(script, sock.script), sock.Next());
        var r, e, part := sock.Recv(left);
        if r < 0 {
          if e == EAGAIN {
            ret := -1;
            break;
          } else if e == ECONNRESET {
            ret := -2;
            break;
          } else if e == EINTR {
            continue;
          } else {
            ret := -2;
            break;
          }
        } else if r == 0 {
          ret := -3;
          break;
        } else {
          data := data + part;
          left := left - r;
        }
      }
    }

    method PushReceivedBuffer(n: Node<Buf>)
      requires Valid() && n !in list.nodes && posted > 0
      modifies this`inList, this`posted, list, n`next, list.nodes`next
      ensures Valid() && list.Cells() <= old(list.Cells()) + {n}
      ensures Value() == old(Value()).Push(n.num, old(n.item))
    {
      hide Insert, Place, List.Valid;
      InsertGrows(list.Entries(), Entry(n.num, n.item));
      list.Push(n);
      inList := inList + 1;
      posted := posted - 1;
    }

    /** Sorts the buffer in and unpacks as much of the run as `memory` message buffers allow. fault tells that
      * the call ends at a null pointer instead of returning.
      * The loop of the source starts over at the front of the list after every packet; here that is a
      * new turn of the outer loop, whose measure is the number of bytes left in the run. */
    method RecvPacket(n: Node<Buf>, memory: nat) returns (ret: int, fault: bool)
      requires Valid() && n !in list.nodes && posted > 0
      modifies this, list, n, list.Cells()
      ensures Valid()
      ensures var rx := old(Value()).Push(n.num, old(n.item));
        && Value() == rx.Unpack(memory) && (fault <==> rx.Faults(memory))
        && (!fault ==>
              match Parse(rx.Run(), memory).status
              case NeedMore => ret == 0
              case NoMemory => ret == -3
              case NoCodec => ret == -6
              case BadFlag => ret == -4
              case TooLong => ret == -4
              case BadSum => ret == -4)
    {
      hide Parse, FrontOf, RunBytes, Rx.Unpack, Rx.Push, List.Valid;
      PushReceivedBuffer(n);
      ghost var rx := Value();
      var m := memory;
      var going := true;
      ret, fault := 0, false;
      while going
        invariant Valid() && rx.Counted() && list.Cells() <= old(list.Cells()) + {n}
        invariant going ==> rx.Unpack(memory) == Value().Unpack(m)
        invariant going ==> Parse(rx.Run(), memory).status == Parse(Value().Run(), m).status
        invariant going ==> !fault
        invariant !going ==> Value() == rx.Unpack(memory) && (fault <==> rx.Faults(memory))
        invariant !going && !fault ==> ret == Code(Parse(rx.Run(), memory).status)
        decreases going, |Value().Run()|
      {
        UnpackRound(Value(), m);
        var front;
        front, fault := CutFront(m);
        match front {
          case Stop(status, _) => going, ret := false, Code(status);
          case Packet(_) => m := m - 1;
        }
      }
    }

    method AdvanceNode(cur: Node<Buf>, taken: nat, ghost i: nat)
      requires list.Valid() && i < |list.nodes| && cur == list.nodes[i] && taken <= cur.item.len
      modifies cur`item
      ensures list.Valid() && cur.item.len == old(cur.item.len) - taken
      ensures list.Entries() == var es := old(list.Entries()); es[i := es[i].(item := es[i].item.Advance(taken))]
    {
      cur.item := cur.item.Advance(taken);
    }

    lemma EntryAt(es: BufList, i: nat)
      requires i < |list.nodes| && es == list.Entries()
      ensures es[i] == Entry(list.nodes[i].num, list.nodes[i].item)
    {}
  }

  /** The first i buffers and `taken` bytes of the next are exactly one packet, gathered in the two arrays. */
  ghost predicate WholePacket(es: BufList, i: nat, taken: nat, header: array<byte>, body: array<byte>)
    requires i < |es|
    reads header, body
  {
    && 0 < taken <= es[i].item.len
    && var p := Bytes(es[..i]) + es[i].item.Left()[..taken];
       |p| == HEADER_LEN + body.Length && Filled(header, body, p)
  }

  /** One turn of the loop: buffer i of the run, which may be empty. */
  method TakeBuffer(header: array<byte>, body: array?<byte>, b: Buf,
                    ghost es: BufList, ghost last: nat, ghost i: nat, used: nat, memory: nat)
    returns (step: Step, body': array?<byte>, used': nat)
    requires i < RunLen(es, last) && b == es[i].item
    requires Gathered(header, body, Bytes(es[..i])) && used == |Bytes(es[..i])|
    requires body != null ==> body != header && memory > 0
    modifies header, body
    ensures body' == body || fresh(body')
    ensures body' != null ==> body' != header && memory > 0
    ensures step.More? ==> Gathered(header, body', Bytes(es[..i + 1])) && used' == |Bytes(es[..i + 1])|
    ensures step.Complete? ==> memory > 0 && body' != null && WholePacket(es, i, step.taken, header, body')
    ensures step.Refused? ==> FrontOf(RunBytes(es, last), memory) == Stop(step.status, 0)
  {
    hide FrontOf, RunBytes, Bytes, Gathered, Filled;
    RunAt(es, last, i);
    ghost var g := Bytes(es[..i]);
    if b.len > 0 {
      step, body', used' := TakeFrom(header, body, b, g, used, memory);
      if step.Refused? {
        FrontRefused(RunBytes(es, last), g + b.Left(), memory, step.status);
      }
    } else {
      step, body', used' := More, body, used;
      assert g + b.Left() == g;
    }
  }

  // ----- when RecvPacket follows a null pointer

  /** As long as no buffer is empty: exactly if a packet with a wrong check sum ends where the last byte of
    * the last listed buffer does, with no gap before. */
  lemma FaultsIff(rx: Rx, m: nat)
    requires rx.Counted() && AllLeft(rx.list)
    ensures rx.Faults(m) <==>
      var p := Parse(rx.Run(), m); p.status == BadSum && p.rest == [] && RunLen(rx.list, rx.last) == |rx.list|
  {
    hide Parse, Bytes, Drop;
    var k, c := RunLen(rx.list, rx.last), |rx.Run()| - |Parse(rx.Run(), m).rest|;
    var tail := rx.list[k..];
    assert rx.list == rx.list[..k] + tail;
    BytesSplit(rx.list[..k], tail);
    DropAll(tail, 0);
    DropNothing(tail);
    DropAll(rx.list, c);
  }

  lemma {:induction false} DropAll(s: BufList, c: nat)
    requires c <= |Bytes(s)| && AllLeft(s)
    ensures Drop(s, c) == [] <==> c == |Bytes(s)|
  {
    if c > 0 && |s[0].item.Left()| <= c {
      DropAll(s[1..], c - |s[0].item.Left()|);
    }
  }

  /** So a fresh connection that receives nothing but one such packet, in one buffer, does. */
  lemma LonePacketFaults(body: seq<byte>, sum: nat, m: nat)
    requires CacheServes(MESSAGE_HEAD + |body|, m) && sum < 0x1_0000_0000 && sum != CheckSum(body)
    ensures var data := EncodeHeader(Header(HEADER_FLAG, 0, 0, |body|, sum, |body|)) + body;
      Rx(1, 1, 0, 0, 0, 0, [], []).Push(1, Full(data)).Faults(m)
  {
    FrontOfSpoiled(body, sum, m);
    LoneBuffer(EncodeHeader(Header(HEADER_FLAG, 0, 0, |body|, sum, |body|)) + body, m);
  }

  lemma LoneBuffer(data: seq<byte>, m: nat)
    requires FrontOf(data, m) == Stop(BadSum, |data|)
    ensures Rx(1, 1, 0, 0, 0, 0, [], []).Push(1, Full(data)).Faults(m)
  {
    hide FrontOf;
    var rx := Rx(1, 1, 0, 0, 0, 0, [], []).Push(1, Full(data));
    assert rx.list == [Entry(1, Full(data))] && rx.list[1..] == [];
    RunStep(rx.list, 0);
    RunStep([], 1);
    assert rx.Run() == data;
    FaultsIff(rx, m);
  }

  lemma InsertGrows(s: BufList, e: Entry<Buf>)
    ensures |Insert(s, e)| <= |s| + 1
  {}

  /** After a call that found nothing wrong no complete packet is left in the run. */
  lemma {:induction false} UnpackDrains(rx: Rx, m: nat)
    requires rx.Counted() && Parse(rx.Run(), m).status == NeedMore
    ensures FrontOf(rx.Unpack(m).Run(), m + 1) == Stop(NeedMore, 0)
    decreases |rx.Run()|
  {
    hide Drop, RunBytes, Rx.Consume;
    ParseLeaves(rx.Run(), m);
  }

  lemma {:induction false} ParseLeaves(s: seq<byte>, m: nat)
    requires Parse(s, m).status == NeedMore
    ensures Parse(s, m).rest == s[|s| - |Parse(s, m).rest|..]
    ensures forall k :: k > 0 ==> FrontOf(Parse(s, m).rest, k) == Stop(NeedMore, 0)
    decreases |s|
  {
    hide FrontOf;
    match FrontOf(s, m) {
      case Stop(_, _) =>
        FrontShort(s, m);
      case Packet(body) =>
        ParseLeaves(s[HEADER_LEN + |body|..], m - 1);
    }
  }

  lemma FrontShort(s: seq<byte>, m: nat)
    requires FrontOf(s, m) == Stop(NeedMore, 0)
    ensures forall k :: k > 0 ==> FrontOf(s, k) == Stop(NeedMore, 0)
  {}

  lemma ConsumeNothing(rx: Rx)
    requires rx.Counted()
    ensures rx.Consume(0) == rx
  {}

  lemma ConsumeAt(rx: Rx, i: nat, taken: nat)
    requires rx.Counted() && i < |rx.list| && 0 < taken <= rx.list[i].item.len
    requires |Bytes(rx.list[..i])| + taken <= |rx.Run()|
    ensures var l, e := rx.list, rx.list[i];
      rx.Consume(|Bytes(l[..i])| + taken) ==
        if taken == e.item.len then rx.(list := l[i + 1..], last := rx.last + i + 1, inList := rx.inList - i - 1)
        else rx.(list := l[i := e.(item := e.item.Advance(taken))][i..], last := rx.last + i, inList := rx.inList - i)
  {
    hide Bytes, RunBytes, Drop, RunLen, Rx.Consume;
    var c, l, e := |Bytes(rx.list[..i])| + taken, rx.list, rx.list[i];
    ConsumeDrops(rx, c);
    DropAt(l, i, taken);
    ReplaceAt(l, i, e.(item := e.item.Advance(taken)));
  }

  lemma ConsumeDrops(rx: Rx, c: nat)
    requires rx.Counted() && c <= |rx.Run()|
    ensures c <= |Bytes(rx.list)| && rx.Counted()
    ensures var rest := Drop(rx.list, c); var k := |rx.list| - |rest|;
      k <= rx.inList && rx.Consume(c) == rx.(list := rest, last := rx.last + k, inList := rx.inList - k)
  {
    hide Bytes, RunBytes, Drop, RunLen;
    DropRun(rx.list, rx.last, c);
  }

  lemma ReplaceAt(s: BufList, i: nat, e: Entry<Buf>)
    requires i < |s|
    ensures s[i := e][i..] == [e] + s[i + 1..]
  {}

  /** A whole packet in the two arrays is what the one-pass parser sees at the front. */
  lemma FrontWhole(es: BufList, last: nat, i: nat, taken: nat, header: array<byte>, body: array<byte>, m: nat)
    requires i < RunLen(es, last) && WholePacket(es, i, taken, header, body) && m > 0
    ensures header.Length == HEADER_LEN && 0 < taken <= es[i].item.len
    ensures |Bytes(es[..i])| + taken == HEADER_LEN + body.Length <= |RunBytes(es, last)|
    ensures var h := DecodeHeader(header[..]);
      FrontOf(RunBytes(es, last), m)
        == if CheckSum(body[..]) != h.checkSum then Stop(BadSum, HEADER_LEN + body.Length)
           else if h.encrypt != 0 || h.compress != 0 then Stop(NoCodec, HEADER_LEN + body.Length)
           else Packet(body[..])
  {
    hide Bytes, RunBytes, FrontOf;
    RunAt(es, last, i);
    var p := Bytes(es[..i]) + es[i].item.Left()[..taken];
    assert p <= Bytes(es[..i]) + es[i].item.Left();
    FrontGathered(RunBytes(es, last), p, m);
    assert body[..|p| - HEADER_LEN] == body[..];
  }

  lemma NothingGathered(header: array<byte>, es: BufList)
    requires header.Length == HEADER_LEN
    ensures Bytes(es[..0]) == [] && Gathered(header, null, [])
  {}

  lemma FrontRefused(run: seq<byte>, g: seq<byte>, m: nat, status: Status)
    requires g <= run && Refusal(g, m, status)
    ensures FrontOf(run, m) == Stop(status, 0)
  {
    FrontGathered(run, g, m);
  }

  lemma WholeRun(es: BufList, last: nat)
    ensures RunBytes(es, last) == Bytes(es[..RunLen(es, last)])
  {}

  lemma FrontUnfinished(header: array<byte>, body: array?<byte>, es: BufList, last: nat, m: nat)
    requires Gathered(header, body, RunBytes(es, last)) && (body != null ==> m > 0)
    ensures FrontOf(RunBytes(es, last), m) == Stop(NeedMore, 0)
  {
    if body != null {
      FrontGathered(RunBytes(es, last), RunBytes(es, last), m);
    }
  }
}
