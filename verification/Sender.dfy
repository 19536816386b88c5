/** The sending half of a connection: packets are numbered when they are submitted, may be prepared in any
  * order, and go onto the wire strictly in the order of their numbers, over as many partial writes as the
  * socket makes of it. */
module Sender {
  import opened LittleEndian
  import opened Wire
  import opened SortedList
  import opened Buffers
  import opened Sockets

  /** The sender's fields as a value: m_uiSendBufferIndex, m_uiCurSendingPacketSequenceNum,
    * m_uiLastSentPacketSequenceNum, the sorted send list, and whether the poller watches for writability. */
  datatype Tx = Tx(sendIndex: nat, next: nat, lastSent: nat, list: BufList, armed: bool)
  {
    predicate NonEmpty() { AllLeft(list) }

    function Run(): seq<byte> { RunBytes(list, lastSent) }

    /** The first c bytes of the packets that are next in turn are on the wire. */
    function Consume(c: nat): (tx: Tx)
      requires c <= |Run()|
      ensures tx.Run() == Run()[c..]
    {
      DropRun(list, lastSent, c);
      var rest := Drop(list, c);
      this.(list := rest, lastSent := lastSent + (|list| - |rest|))
    }
  }

  // CXPacketBodyData without its trailing buffer
  datatype BodyHead = BodyHead(objectGuid: seq<byte>, requestId: seq<byte>, mesCode: nat, packetNum: nat)

  const GUID_LEN: nat := 16
  // sizeof(CXPacketBodyData) - 1, packed
  const BODY_HEAD: nat := 2 * GUID_LEN + 8

  function Body(h: BodyHead, data: seq<byte>): (s: seq<byte>)
    requires |h.objectGuid| == |h.requestId| == GUID_LEN
    ensures |s| == BODY_HEAD + |data|
  {
    h.objectGuid + h.requestId + Store(h.mesCode, 4) + Store(h.packetNum, 4) + data
  }

  /** A packet with room for its header: the two identifiers, two little-endian words, and the data. */
  ghost predicate Laid(p: seq<byte>, objectGuid: seq<byte>, requestId: seq<byte>, mesCode: nat, packetNum: nat,
                       data: seq<byte>)
  {
    && |p| == 56 + |data|
    && p[16..32] == objectGuid && p[32..48] == requestId
    && p[48] as int + 256 * p[49] as int + 65536 * p[50] as int + 16777216 * p[51] as int == mesCode % 0x1_0000_0000
    && p[52] as int + 256 * p[53] as int + 65536 * p[54] as int + 16777216 * p[55] as int == packetNum % 0x1_0000_0000
    && p[56..] == data
  }

  lemma BodyLaid(room: seq<byte>, objectGuid: seq<byte>, requestId: seq<byte>, mesCode: nat, packetNum: nat,
                 data: seq<byte>)
    requires |room| == HEADER_LEN && |objectGuid| == |requestId| == GUID_LEN
    ensures Laid(room + Body(BodyHead(objectGuid, requestId, mesCode, packetNum % 0x1_0000_0000), data),
                 objectGuid, requestId, mesCode, packetNum, data)
  {
    hide Store, Load;
    var h := BodyHead(objectGuid, requestId, mesCode, packetNum % 0x1_0000_0000);
    var p := room + Body(h, data);
    StoredWord(mesCode);
    StoredWord(h.packetNum);
    assert p[16..32] == objectGuid && p[32..48] == requestId && p[56..] == data;
    assert p[48..52] == Store(mesCode, 4) && p[52..56] == Store(h.packetNum, 4);
    assert p[48..52][0] == p[48] && p[48..52][1] == p[49] && p[48..52][2] == p[50] && p[48..52][3] == p[51];
    assert p[52..56][0] == p[52] && p[52..56][1] == p[53] && p[52..56][2] == p[54] && p[52..56][3] == p[55];
  }

  /** c more bytes of the run are on the wire, and exactly those have left the list. */
  ghost predicate Progress(tx: Tx, wire: seq<byte>, c: nat, tx': Tx, wire': seq<byte>) {
    c <= |tx.Run()| && wire' == wire + tx.Run()[..c] && tx' == tx.Consume(c)
  }

  /** What SendDataList does as long as the connection holds: it puts a beginning of the run on the wire. It
    * returns 0 with everything out or with the poller watching for the rest, and -4 if the poller refuses. */
  ghost predicate Sent(tx: Tx, wire: seq<byte>, tx': Tx, wire': seq<byte>, ret: int) {
    |wire| <= |wire'| &&
    var c := |wire'| - |wire|;
    && Progress(tx, wire, c, tx'.(armed := tx.armed), wire')
    && (ret == 0 || ret == -4)
    && (ret == 0 ==> tx'.armed == (tx.armed || c < |tx.Run()|))
    && (ret == -4 ==> tx'.armed == tx.armed && c < |tx.Run()|)
  }

  /** How many of len bytes, offered until all are taken, a socket takes with these outcomes. */
  function Taken(used: seq<Outcome>, len: nat): (n: nat)
    ensures n <= len
  {
    if |used| == 0 then 0
    else
      var n, o := Taken(used[..|used| - 1], len), used[|used| - 1];
      if o.Moved? && n < len then n + Max(1, Min(o.n, len - n)) else n
  }

  lemma TakenNone(len: nat)
    ensures Taken([], len) == 0
  {}

  lemma TakenMore(used: seq<Outcome>, o: Outcome, len: nat)
    ensures var n := Taken(used, len);
      Taken(used + [o], len) == if o.Moved? && n < len then n + Max(1, Min(o.n, len - n)) else n
  {
    assert (used + [o])[..|used|] == used;
  }

  /** What send has answered in a call of SendDataList. The call goes on over hard errors, but not over EAGAIN; as
    * long as there was none, it ends with everything out, or with EAGAIN. */
  ghost predicate Heard(used: seq<Outcome>, rest: seq<Outcome>, broken: bool, left: bool) {
    && (broken <==> HardIn(used))
    && (forall i :: 0 <= i < |used| - 1 ==> used[i] != Again)
    && (!broken ==> if left then DriedUp(used, rest) else AllCalm(used))
  }

  // nothing but Moved, Interrupted and hard errors so far
  ghost predicate Going(used: seq<Outcome>, broken: bool) {
    && (broken <==> HardIn(used))
    && (forall i :: 0 <= i < |used| ==> used[i] != Again)
  }

  lemma NothingUsed(script: seq<Outcome>)
    ensures Consumed(script, script) && Going(Used(script, script), false)
  {}

  // the outcomes for one packet
  ghost predicate HeardOne(used: seq<Outcome>, rest: seq<Outcome>, code: int) {
    match code
    case 0 => AllCalm(used)
    case -1 => DriedUp(used, rest)
    case -2 => EndsWith(used, {PeerReset, Failed})
    case -3 => EndsWith(used, {PeerClosed})
    case _ => false
  }

  lemma GoesOn(used: seq<Outcome>, broken: bool, more: seq<Outcome>, rest: seq<Outcome>, code: int)
    requires Going(used, broken) && HeardOne(more, rest, code) && code != -1
    ensures Going(used + more, broken || code != 0)
  {
    HardInMore(used, more);
    if code != 0 {
      assert Hard(more[|more| - 1]);
    }
  }

  lemma GoesNoFurther(used: seq<Outcome>, broken: bool, more: seq<Outcome>, rest: seq<Outcome>)
    requires Going(used, broken) && HeardOne(more, rest, -1)
    ensures Heard(used + more, rest, broken, true) && (broken ==> Heard(used + more, rest, broken, false))
  {
    HardInMore(used, more);
    var os := used + more;
    if !broken {
      forall i | 0 <= i < |used|
        ensures Calm(os[i])
      {
        assert !Hard(used[i]);
      }
      if EndsWith(more, {Again}) {
        assert os[..|os| - 1] == used + more[..|more| - 1];
      }
    }
  }

  lemma AllOut(used: seq<Outcome>, broken: bool, rest: seq<Outcome>)
    requires Going(used, broken)
    ensures Heard(used, rest, broken, false) && (broken ==> Heard(used, rest, broken, true))
  {
    if !broken {
      forall i | 0 <= i < |used|
        ensures Calm(used[i])
      {
        assert !Hard(used[i]);
      }
    }
  }

  lemma ProgressNone(tx: Tx, wire: seq<byte>)
    ensures Progress(tx, wire, 0, tx, wire)
  {}

  lemma ProgressMore(tx: Tx, wire: seq<byte>, c: nat, tx1: Tx, wire1: seq<byte>, d: nat, tx2: Tx, wire2: seq<byte>)
    requires Progress(tx, wire, c, tx1, wire1) && Progress(tx1, wire1, d, tx2, wire2)
    ensures Progress(tx, wire, c + d, tx2, wire2)
    ensures |tx1.Run()| == |tx.Run()| - c && |tx2.Run()| == |tx.Run()| - c - d
  {
    hide RunBytes, Drop;
    DropRun(tx.list, tx.lastSent, c + d);
    if d > 0 {
      DropTwice(tx.list, c, d);
    }
    assert tx.Run()[..c] + tx.Run()[c..][..d] == tx.Run()[..c + d];
    DropNothing(tx1.list);
  }

  lemma SentPart(tx: Tx, wire: seq<byte>, c: nat, tx': Tx, wire': seq<byte>, ret: int)
    requires Progress(tx, wire, c, tx'.(armed := tx.armed), wire') && c < |tx.Run()|
    requires ret == (if tx'.armed && ret != -4 then 0 else -4) && (ret == -4 ==> tx'.armed == tx.armed)
    ensures Sent(tx, wire, tx', wire', ret)
  {}

  lemma SentAll(tx: Tx, wire: seq<byte>, c: nat, tx': Tx, wire': seq<byte>)
    requires Progress(tx, wire, c, tx', wire') && RunLen(tx'.list, tx'.lastSent) == 0
    ensures Sent(tx, wire, tx', wire', 0) && tx'.Run() == []
  {
    hide Drop;
  }

  /** Part of the first packet, or all of it. */
  lemma ConsumeHead(tx: Tx, c: nat)
    requires |tx.list| > 0 && tx.list[0].num == tx.lastSent + 1
    requires c <= tx.list[0].item.len && tx.list[0].item.len > 0
    ensures var e, l := tx.list[0], tx.list[0].item.Left();
      && l <= tx.Run()
      && tx.Consume(c) == if c == e.item.len then tx.(list := tx.list[1..], lastSent := tx.lastSent + 1)
                          else tx.(list := tx.list[0 := e.(item := e.item.Advance(c))])
  {
    hide RunBytes;
    RunStep(tx.list, tx.lastSent);
    DropRun(tx.list, tx.lastSent, c);
  }

  /** A turn of the send loop, all of the packet at the head or a beginning of it, is progress. */
  lemma HeadProgress(tx: Tx, wire: seq<byte>, c: nat, tx': Tx, wire': seq<byte>)
    requires |tx.list| > 0 && tx.list[0].num == tx.lastSent + 1 && c <= tx.list[0].item.len && tx.list[0].item.len > 0
    requires wire' == wire + tx.list[0].item.Left()[..c]
    requires var e := tx.list[0];
      tx' == if c == e.item.len then tx.(list := tx.list[1..], lastSent := tx.lastSent + 1)
             else tx.(list := tx.list[0 := e.(item := e.item.Advance(c))])
    ensures Progress(tx, wire, c, tx', wire')
    ensures c < tx.list[0].item.len ==> c < |tx.Run()|
  {
    hide RunBytes, Tx.Consume;
    ConsumeHead(tx, c);
  }

  class SendSide {
    const list: List<Buf>
    var sendIndex: nat
    var next: nat
    var lastSent: nat
    var armed: bool

    ghost predicate Valid()
      reads this, list, list.nodes
    {
      list.Valid() && Value().NonEmpty()
    }

    ghost function Value(): Tx
      reads this, list, list.nodes
    {
      Tx(sendIndex, next, lastSent, list.Entries(), armed)
    }

    constructor ()
      ensures Valid() && fresh(list) && Value() == Tx(0, 1, 0, [], false)
    {
      list := new List();
      sendIndex, next, lastSent, armed := 0, 1, 0, false;
    }

    /** The first half of SendPacket. The packet gets a number only after it got a buffer, which the memory
      * cache refuses if it is too big for any, or if it has none left. The length asked for is a DWORD: if it
      * wraps, the buffer is too small for the data, and fault tells that the code copies beyond it. */
    method NumberPacket(data: seq<byte>, mesCode: nat, objectGuid: seq<byte>, requestId: seq<byte>, memory: nat)
      returns (n: Node?<Buf>, fault: bool)
      requires Valid() && |objectGuid| == |requestId| == GUID_LEN && |data| < 0x1_0000_0000
      modifies this`sendIndex, this`next
      ensures Valid() && list.nodes == old(list.nodes)
      ensures fault <==> memory > 0 && BUFFER_HEAD + HEADER_LEN + BODY_HEAD + |data| >= 0x1_0000_0000
      ensures fault ==> n == null
      ensures n != null <==> |data| > 0 && memory > 0 && FitsBuffer(BODY_HEAD + |data|)
      ensures n == null ==> Value() == old(Value())
      ensures n != null ==> fresh(n) && n.num == old(next) && n.item.cur == 0 && n.item.len == |n.item.data|
      ensures n != null ==> HEADER_LEN <= |n.item.data| && FitsBuffer(|n.item.data| - HEADER_LEN)
      ensures n != null ==> Laid(n.item.data, objectGuid, requestId, mesCode, old(sendIndex), data)
      ensures n != null ==> Value() == old(Value()).(sendIndex := old(sendIndex) + 1, next := old(next) + 1)
    {
      n, fault := null, false;
      if |data| == 0 {
        return;
      }
      var packetLen := (|data| + HEADER_LEN + BODY_HEAD) % 0x1_0000_0000;
      var bufferLen := (packetLen + BUFFER_HEAD) % 0x1_0000_0000;
      if !CacheServes(bufferLen, memory) {
        return;
      }
      if bufferLen < BUFFER_HEAD + HEADER_LEN + BODY_HEAD + |data| {
        fault := true;
        return;
      }
      var body := Body(BodyHead(objectGuid, requestId, mesCode, sendIndex % 0x1_0000_0000), data);
      sendIndex := sendIndex + 1;
      var room := seq(HEADER_LEN, _ => 0);
      BodyLaid(room, objectGuid, requestId, mesCode, sendIndex - 1, data);
      n := new Node(next, Full(room + body));
      next := next + 1;
    }

    /** send until the packet is out, the socket takes no more, or it breaks. */
    method SendOne(cur: Node<Buf>, sock: Socket) returns (code: int, ghost c: nat)
      modifies cur`item, sock`script, sock`wire
      ensures code in {0, -1, -2, -3} && c <= old(cur.item).len
      ensures Consumed(old(sock.script), sock.script)
      ensures var used := Used(old(sock.script), sock.script);
        HeardOne(used, sock.script, code) && c == Taken(used, old(cur.item).len)
      ensures sock.wire == old(sock.wire) + old(cur.item).Left()[..c]
      ensures code == 0 ==> c == old(cur.item).len
      ensures code != -1 ==> cur.item == old(cur.item)
      ensures code == -1 ==> c < old(cur.item).len && cur.item == old(cur.item).Advance(c)
    {
      hide Consumed, Used, AllCalm, EndsWith, Taken;
      ghost var script := sock.script;
      NoneUsed(script);
      TakenNone(cur.item.len);
      var total, left := 0, cur.item.len;
      var begin := cur.item.cur;
      code := 0;
      while left > 0
        invariant code == 0 && cur.item == old(cur.item) && total + left == cur.item.len && left >= 0 && total >= 0
        invariant sock.wire == old(sock.wire) + cur.item.Left()[..total]
        invariant Consumed(script, sock.script)
        invariant AllCalm(Used(script, sock.script)) && total == Taken(Used(script, sock.script), cur.item.len)
        decreases left, |sock.script|
      {
        OneUsed(script, sock.script);
        Ends(Used(script, sock.script), sock.Next());
        TakenMore(Used(script, sock.script), sock.Next(), cur.item.len);
        var r, e := sock.Send(cur.item.data[begin + total..begin + total + left]);
        if r == -1 {
          if e == EAGAIN {
            cur.item := RawBuf(cur.item.data, left, cur.item.cur + total);
            code := -1;
            break;
          } else if e == ECONNRESET {
            code := -2;
            break;
          } else if e == EINTR {
            continue;
          } else {
            code := -2;
            break;
          }
        }
        if r == 0 {
          code := -3;
          break;
        }
        total := total + r;
        left := left - r;
      }
      c := total;
    }

    /** One turn of the send loop. A packet that is out, or whose socket broke, leaves the list. */
    method SendHead(sock: Socket) returns (code: int, ghost c: nat)
      requires Valid() && |list.nodes| > 0 && list.head.num == lastSent + 1
      modifies this`lastSent, list, list.Cells(), sock`script, sock`wire
      ensures Valid() && list.Cells() <= old(list.Cells())
      ensures code in {0, -1, -2, -3}
      ensures Consumed(old(sock.script), sock.script)
      ensures HeardOne(Used(old(sock.script), sock.script), sock.script, code)
      ensures code == -1 ==> list.nodes == old(list.nodes) && c < |old(Value()).Run()|
      ensures code != -1 ==> list.nodes == old(list.nodes)[1..]
      ensures code == 0 || code == -1 ==> Progress(old(Value()), old(sock.wire), c, Value(), sock.wire)
    {
      hide RunBytes, Progress, Buf.Left, List.Valid, HeardOne, Consumed;
      ghost var tx := Value();
      list.Ends();
      var cur := list.head;
      code, c := SendHeadNode(cur, sock);
      if code != -1 {
        lastSent := lastSent + 1;
        var gone := list.RemoveHead();
      }
      if code == 0 || code == -1 {
        HeadProgress(tx, old(sock.wire), c, Value(), sock.wire);
      }
    }

    method SendHeadNode(cur: Node<Buf>, sock: Socket) returns (code: int, ghost c: nat)
      requires Valid() && |list.nodes| > 0 && cur == list.nodes[0]
      modifies cur`item, sock`script, sock`wire
      ensures Valid() && code in {0, -1, -2, -3} && c <= old(cur.item).len
      ensures Consumed(old(sock.script), sock.script)
      ensures HeardOne(Used(old(sock.script), sock.script), sock.script, code)
      ensures sock.wire == old(sock.wire) + old(Value()).list[0].item.Left()[..c]
      ensures code == 0 ==> c == old(Value()).list[0].item.len
      ensures code != -1 ==> Value() == old(Value())
      ensures var l := old(Value()).list;
        code == -1 ==>
          && c < l[0].item.len
          && Value() == old(Value()).(list := l[0 := l[0].(item := l[0].item.Advance(c))])
    {
      hide HeardOne, Consumed;
      ghost var l := Value().list;
      code, c := SendOne(cur, sock);
      assert forall i :: 0 < i < |l| ==> Value().list[i] == l[i];
    }

    /** Writes the packets that are next in turn. Up to the first hard error everything is in the contract;
      * from then on `broken` is set and the code goes on dropping packets while it closes the connection. */
    method SendDataList(sock: Socket, pollerWorks: bool) returns (ret: int, broken: bool)
      requires Valid()
      modifies this`lastSent, this`armed, list, list.Cells(), sock`script, sock`wire
      ensures Valid() && list.Cells() <= old(list.Cells())
      ensures Consumed(old(sock.script), sock.script)
      ensures broken <==> HardIn(Used(old(sock.script), sock.script))
      ensures Heard(Used(old(sock.script), sock.script), sock.script, broken, Value().Run() != [])
      ensures !broken ==> Sent(old(Value()), old(sock.wire), Value(), sock.wire, ret)
      ensures !broken ==> ret == if Value().Run() != [] && !pollerWorks then -4 else 0
      ensures ret in {0, -2, -3, -4}
    {
      hide RunBytes, Tx.Consume, List.Valid, Progress, Sent, HeardOne, Heard, Going, HardIn, AllCalm, Consumed;
      ghost var tx, wire, c := Value(), sock.wire, 0;
      ghost var script := sock.script;
      ProgressNone(tx, wire);
      NothingUsed(script);
      ret, broken := 0, false;
      list.Ends();
      var going := list.head != null;
      while going && list.head.num == lastSent + 1
        invariant Valid() && list.Cells() <= old(list.Cells()) && armed == tx.armed
        invariant going <==> |list.nodes| > 0
        invariant going ==> list.head == list.nodes[0]
        invariant !broken ==> ret == 0 && Progress(tx, wire, c, Value(), sock.wire)
        invariant Consumed(script, sock.script) && Going(Used(script, sock.script), broken)
        invariant ret in {0, -2, -3}
        decreases |list.nodes|
      {
        ghost var tx1, wire1, before := Value(), sock.wire, sock.script;
        var code, d := SendHead(sock);
        UsedMore(script, before, sock.script);
        if !broken && code >= -1 {
          ProgressMore(tx, wire, c, tx1, wire1, d, Value(), sock.wire);
          c := c + d;
        }
        if code == -1 {
          GoesNoFurther(Used(script, before), broken, Used(before, sock.script), sock.script);
          if pollerWorks {
            armed := true;
            ret := 0;
          } else {
            ret := -4;
          }
          if !broken {
            SentPart(tx, wire, c, Value(), sock.wire, ret);
          }
          return;
        }
        GoesOn(Used(script, before), broken, Used(before, sock.script), sock.script, code);
        if code != 0 {
          ret := code;
          broken := true;
        }
        list.Ends();
        going := list.head != null;
      }
      AllOut(Used(script, sock.script), broken, sock.script);
      if !broken {
        SentAll(tx, wire, c, Value(), sock.wire);
      }
    }

    /** Sorts the packet in, by the same insertion as the receive list. */
    method PushSendBuffer(n: Node<Buf>)
      requires Valid() && n !in list.nodes && n.item.len > 0
      modifies list, n`next, list.nodes`next
      ensures Valid() && list.Cells() <= old(list.Cells()) + {n}
      ensures Value() == old(Value()).(list := Insert(old(Value()).list, Entry(n.num, n.item)))
    {
      hide Insert, Place, List.Valid;
      InsertNonEmpty(list.Entries(), Entry(n.num, n.item));
      list.Push(n);
    }

    /** Frames the packet and posts it. PostSend refuses a packet over its limit; but a packet that
      * NumberPacket has numbered never is. */
    method SendAssembledPacket(n: Node<Buf>, established: bool, sock: Socket, pollerWorks: bool)
      returns (ret: int, broken: bool)
      requires Valid() && n !in list.nodes
      requires n.item.cur == 0 && HEADER_LEN <= n.item.len == |n.item.data| <= 0xFFFF_FFFF
      modifies this`lastSent, this`armed, list, list.Cells(), n, sock`script, sock`wire
      ensures Valid() && list.Cells() <= old(list.Cells()) + {n}
      ensures var tx, body := old(Value()), old(n.item).data[HEADER_LEN..];
        if |old(n.item).data| > 1048576 then ret == -1 && !broken && Value() == tx && unchanged(sock)
        else
          var pushed := tx.(list := Insert(tx.list, Entry(n.num, Full(Frame(body)))));
          if !established then ret == 0 && !broken && Value() == pushed && unchanged(sock)
          else
            && Consumed(old(sock.script), sock.script)
            && (broken <==> HardIn(Used(old(sock.script), sock.script)))
            && Heard(Used(old(sock.script), sock.script), sock.script, broken, Value().Run() != [])
            && (!broken ==> Sent(pushed, old(sock.wire), Value(), sock.wire, ret))
            && (!broken ==> ret == if Value().Run() != [] && !pollerWorks then -4 else 0)
    {
      hide List.Valid, Insert, Sent, HardIn, Heard, Consumed, RunBytes;
      var body := n.item.data[HEADER_LEN..];
      var sum := ComputeCheckSum(body);
      var header := EncodeHeader(Header(HEADER_FLAG, 0, 0, |body|, sum, |body|));
      n.item := Full(header + body);
      broken := false;
      if n.item.len > MAX_SEND_LEN {
        ret := -1;
        return;
      }
      PushSendBuffer(n);
      if !established {
        ret := 0;
        return;
      }
      ret, broken := SendDataList(sock, pollerWorks);
    }

    /** The writable branch of ProcessEpollEvent: it stops watching first, so that SendDataList decides anew. */
    method OnWritable(sock: Socket, disarmWorks: bool, pollerWorks: bool) returns (ret: int, broken: bool)
      requires Valid()
      modifies this`lastSent, this`armed, list, list.Cells(), sock`script, sock`wire
      ensures Valid() && list.Cells() <= old(list.Cells())
      ensures !disarmWorks ==> ret == -4 && !broken && Value() == old(Value()) && unchanged(sock)
      ensures disarmWorks ==> Consumed(old(sock.script), sock.script)
      ensures disarmWorks ==> (broken <==> HardIn(Used(old(sock.script), sock.script)))
      ensures disarmWorks ==> Heard(Used(old(sock.script), sock.script), sock.script, broken, Value().Run() != [])
      ensures disarmWorks ==> ret == 0 || ret == -5
      ensures disarmWorks && !broken ==> ret == if Value().Run() != [] && !pollerWorks then -5 else 0
      ensures disarmWorks && !broken ==>
        Sent(old(Value()).(armed := false), old(sock.wire), Value(), sock.wire, if ret == -5 then -4 else 0)
    {
      hide List.Valid, Progress, HardIn, Heard, Consumed, RunBytes;
      if !disarmWorks {
        ret, broken := -4, false;
        return;
      }
      armed := false;
      var sent;
      sent, broken := SendDataList(sock, pollerWorks);
      ret := if sent == -4 then -5 else 0;
    }
  }

  /** Whatever SendDataList leaves behind, the poller watches for it if it can go out next. */
  lemma NoStrandedOutput(tx: Tx, wire: seq<byte>, tx': Tx, wire': seq<byte>)
    requires Sent(tx, wire, tx', wire', 0) && tx.NonEmpty()
    ensures |tx'.list| > 0 && tx'.list[0].num == tx'.lastSent + 1 ==> tx'.armed
    ensures !tx.armed ==> (tx'.armed <==> |tx'.list| > 0 && tx'.list[0].num == tx'.lastSent + 1)
  {
    hide RunBytes, Drop;
    var c := |wire'| - |wire|;
    RunStep(tx'.list, tx'.lastSent);
    DropRun(tx.list, tx.lastSent, c);
    DropNonEmpty(tx.list, c);
  }
}
