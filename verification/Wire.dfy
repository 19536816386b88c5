/** The packet format: a 16-byte header with magic number, length and check sum, then the body. */
module Wire {
  import opened LittleEndian

  // sizeof(CXPacketHeader), packed
  const HEADER_LEN: nat := 16
  const HEADER_FLAG: nat := 0x25F7
  const MAX_CACHE_SIZE: nat := 1048576
  // PostSend refuses larger packets, header included
  const MAX_SEND_LEN: nat := 1024 * 1024
  // m_dwMaxObjectSize of the memory cache
  const CACHE_OBJECT_MAX: nat := 1024 * 1024
  // sizeof(CXMessageData) - 1, packed, and sizeof(CXBufferObj) - CX_BUF_SIZE, with 8-byte pointers
  const MESSAGE_HEAD: nat := 92
  const BUFFER_HEAD: nat := 56

  /** CXMemoryCacheManager::GetBuffer when the cache can serve `memory` more objects: however many these
    * are, it refuses to serve an object over its maximum size. */
  predicate CacheServes(size: nat, memory: nat) { size <= CACHE_OBJECT_MAX && memory > 0 }

  /** The receiver can ever get a message buffer for a body of this length. */
  predicate FitsMessage(len: nat) { CacheServes(MESSAGE_HEAD + len, 1) }

  /** The sender can ever get a buffer for a packet with a body of this length. */
  predicate FitsBuffer(len: nat) { CacheServes(BUFFER_HEAD + HEADER_LEN + len, 1) }

  datatype Header = Header(flag: nat, compress: byte, encrypt: byte, dataLen: nat, checkSum: nat, originLen: nat)
  {
    predicate Fits() {
      flag < 0x1_0000 && dataLen < 0x1_0000_0000 && checkSum < 0x1_0000_0000 && originLen < 0x1_0000_0000
    }
  }

  function EncodeHeader(h: Header): (s: seq<byte>)
    ensures |s| == HEADER_LEN
  {
    Store(h.flag, 2) + [h.compress, h.encrypt] + Store(h.dataLen, 4) + Store(h.checkSum, 4) + Store(h.originLen, 4)
  }

  function DecodeHeader(s: seq<byte>): (h: Header)
    requires |s| == HEADER_LEN
    ensures h.Fits()
  {
    FourBytes();
    Header(Load(s[..2]), s[2], s[3], Load(s[4..8]), Load(s[8..12]), Load(s[12..16]))
  }

  lemma DecodeEncode(h: Header)
    requires h.Fits()
    ensures DecodeHeader(EncodeHeader(h)) == h
  {
    hide Load, Store, Pow256;
    var s := EncodeHeader(h);
    FourBytes();
    LoadStore(h.flag, 2);
    LoadStore(h.dataLen, 4);
    LoadStore(h.checkSum, 4);
    LoadStore(h.originLen, 4);
    assert s[..2] == Store(h.flag, 2) && s[2] == h.compress && s[3] == h.encrypt;
    assert s[4..8] == Store(h.dataLen, 4);
    assert s[8..12] == Store(h.checkSum, 4);
    assert s[12..16] == Store(h.originLen, 4);
  }

  lemma EncodeDecode(s: seq<byte>)
    requires |s| == HEADER_LEN
    ensures EncodeHeader(DecodeHeader(s)) == s
  {
    StoreLoad(s[..2]);
    StoreLoad(s[4..8]);
    StoreLoad(s[8..12]);
    StoreLoad(s[12..16]);
    assert s == s[..2] + [s[2], s[3]] + s[4..8] + s[8..12] + s[12..16];
  }

  /** The byte sum kept in a 32-bit word. */
  function CheckSum(s: seq<byte>): (n: nat)
    ensures n < 0x1_0000_0000
  {
    if |s| == 0 then 0 else (CheckSum(s[..|s| - 1]) + s[|s| - 1]) % 0x1_0000_0000
  }

  function ByteSum(s: seq<byte>): (n: nat)
    ensures n <= 255 * |s|
  {
    if |s| == 0 then 0 else ByteSum(s[..|s| - 1]) + s[|s| - 1]
  }

  /** No body within the size limit makes the 32-bit sum wrap. */
  lemma {:induction false} CheckSumNeverWraps(s: seq<byte>)
    requires |s| <= MAX_CACHE_SIZE
    ensures CheckSum(s) == ByteSum(s)
  {
    if |s| > 0 {
      CheckSumNeverWraps(s[..|s| - 1]);
    }
  }

  /** The loop that VerifyPacketBodyData and SendAssembledPacket share. */
  method ComputeCheckSum(data: seq<byte>) returns (sum: nat)
    ensures sum == CheckSum(data)
  {
    sum := 0;
    for i := 0 to |data|
      invariant sum == CheckSum(data[..i])
    {
      sum := (sum + data[i]) % 0x1_0000_0000;
      assert data[..i + 1][..i] == data[..i];
    }
    assert data[..|data|] == data;
  }

  /** The bytes of one uncompressed, unencrypted packet. */
  function Frame(body: seq<byte>): (s: seq<byte>)
    ensures |s| == HEADER_LEN + |body|
  {
    EncodeHeader(Header(HEADER_FLAG, 0, 0, |body|, CheckSum(body), |body|)) + body
  }

  function FrameAll(bodies: seq<seq<byte>>): seq<byte> {
    if |bodies| == 0 then [] else Frame(bodies[0]) + FrameAll(bodies[1..])
  }

  predicate Sendable(body: seq<byte>) {
    HEADER_LEN + |body| <= MAX_SEND_LEN
  }

  // ----- cutting packets out of a byte stream in one pass

  datatype Status = NeedMore | BadFlag | TooLong | NoMemory | BadSum | NoCodec

  /** bodies: the packets cut out; rest: the bytes left over; status: why the pass stopped there.
    * A packet that fails its check sum or needs the absent codec is consumed but not among bodies. */
  datatype Parsed = Parsed(bodies: seq<seq<byte>>, rest: seq<byte>, status: Status)
  {
    predicate Spoiled() { status == BadSum || status == NoCodec }

    // how many sequence numbers the pass used up
    function Cuts(): nat { |bodies| + if Spoiled() then 1 else 0 }

    function After(done: seq<seq<byte>>): Parsed { this.(bodies := done + bodies) }
  }

  /** What stands at the front of s: a packet to hand on, or a reason to stop
    * after dropping the first `used` bytes. */
  datatype Front = Packet(body: seq<byte>) | Stop(status: Status, used: nat)

  function FrontOf(s: seq<byte>, memory: nat): (f: Front)
    ensures f.Packet? ==> CacheServes(MESSAGE_HEAD + |f.body|, memory)
    ensures f.Packet? ==> HEADER_LEN + |f.body| <= |s| && f.body == s[HEADER_LEN..HEADER_LEN + |f.body|]
    ensures f.Stop? ==> f.used <= |s| && (f.used > 0 <==> f.status == BadSum || f.status == NoCodec)
  {
    if |s| < HEADER_LEN then Stop(NeedMore, 0)
    else
      var h := DecodeHeader(s[..HEADER_LEN]);
      if h.flag != HEADER_FLAG then Stop(BadFlag, 0)
      else if h.dataLen > MAX_CACHE_SIZE then Stop(TooLong, 0)
      else if !CacheServes(MESSAGE_HEAD + h.dataLen, memory) then Stop(NoMemory, 0)
      else if |s| < HEADER_LEN + h.dataLen then Stop(NeedMore, 0)
      else
        var body := s[HEADER_LEN..HEADER_LEN + h.dataLen];
        if CheckSum(body) != h.checkSum then Stop(BadSum, HEADER_LEN + h.dataLen)
        else if h.encrypt != 0 || h.compress != 0 then Stop(NoCodec, HEADER_LEN + h.dataLen)
        else Packet(body)
  }

  /** One pass over s when the memory cache can serve `memory` more message buffers. */
  function Parse(s: seq<byte>, memory: nat): (p: Parsed)
    ensures |p.rest| <= |s|
    ensures |p.bodies| <= memory
    decreases |s|
  {
    match FrontOf(s, memory)
    case Stop(status, used) => Parsed([], s[used..], status)
    case Packet(body) => Parse(s[HEADER_LEN + |body|..], memory - 1).After([body])
  }

  /** A pass that stopped for want of bytes or memory can be resumed where it stopped:
    * nothing is lost by parsing its leftover again in front of the bytes that follow. */
  lemma {:induction false} ParseResumes(a: seq<byte>, b: seq<byte>, m: nat, more: nat)
    requires Parse(a, m).status == NeedMore || Parse(a, m).status == NoMemory
    ensures Parse(a + b, |Parse(a, m).bodies| + more)
         == Parse(Parse(a, m).rest + b, more).After(Parse(a, m).bodies)
    decreases |a|
  {
    hide FrontOf;
    match FrontOf(a, m) {
      case Stop(_, _) =>
        assert a[0..] == a;
        AfterNothing(Parse(a + b, more));
      case Packet(body) =>
        var tail := a[HEADER_LEN + |body|..];
        var p := Parse(tail, m - 1);
        assert Parse(a, m).bodies == [body] + p.bodies && |[body] + p.bodies| == 1 + |p.bodies|;
        FrontExtends(a, b, m, |p.bodies| + 1 + more);
        assert (a + b)[HEADER_LEN + |body|..] == tail + b;
        assert Parse(a + b, |p.bodies| + 1 + more) == Parse(tail + b, |p.bodies| + more).After([body]);
        hide Parse;
        ParseResumes(tail, b, m - 1, more);
        AfterTwice(Parse(p.rest + b, more), [body], p.bodies);
    }
  }

  lemma FrontExtends(a: seq<byte>, b: seq<byte>, m: nat, m': nat)
    requires FrontOf(a, m).Packet? && m' > 0
    ensures FrontOf(a + b, m') == FrontOf(a, m)
  {
    var cut := HEADER_LEN + |FrontOf(a, m).body|;
    assert (a + b)[..HEADER_LEN] == a[..HEADER_LEN];
    assert (a + b)[HEADER_LEN..cut] == a[HEADER_LEN..cut];
  }

  lemma AfterNothing(p: Parsed)
    ensures p.After([]) == p
  {
    assert [] + p.bodies == p.bodies;
  }

  lemma AfterTwice(p: Parsed, a: seq<seq<byte>>, b: seq<seq<byte>>)
    ensures p.After(b).After(a) == p.After(a + b)
  {
    assert a + (b + p.bodies) == (a + b) + p.bodies;
  }

  /** The receiver's checks accept what the sender's framing produces, and nothing less than all of it. */
  lemma FrontOfFrame(body: seq<byte>, s: seq<byte>, m: nat)
    requires |body| <= MAX_CACHE_SIZE && (s <= Frame(body) || Frame(body) <= s)
    ensures FrontOf(s, m) == if HEADER_LEN <= |s| && !CacheServes(MESSAGE_HEAD + |body|, m) then Stop(NoMemory, 0)
                             else if |Frame(body)| <= |s| then Packet(body) else Stop(NeedMore, 0)
  {
    if HEADER_LEN <= |s| {
      var h := Header(HEADER_FLAG, 0, 0, |body|, CheckSum(body), |body|);
      DecodeEncode(h);
      assert s[..HEADER_LEN] == Frame(body)[..HEADER_LEN] == EncodeHeader(h);
      if |Frame(body)| <= |s| {
        assert s[HEADER_LEN..|Frame(body)|] == Frame(body)[HEADER_LEN..] == body;
      }
    }
  }

  // ----- the layout, in plain arithmetic

  // the words of a header
  lemma HeaderWords(s: seq<byte>)
    requires |s| == 16
    ensures var h := DecodeHeader(s);
      && h.flag == s[0] as int + 256 * s[1] as int
      && h.compress == s[2] && h.encrypt == s[3]
      && h.dataLen == s[4] as int + 256 * s[5] as int + 65536 * s[6] as int + 16777216 * s[7] as int
      && h.checkSum == s[8] as int + 256 * s[9] as int + 65536 * s[10] as int + 16777216 * s[11] as int
      && h.originLen == s[12] as int + 256 * s[13] as int + 65536 * s[14] as int + 16777216 * s[15] as int
  {
    LoadedShort(s[..2]);
    LoadedWord(s[4..8]);
    LoadedWord(s[8..12]);
    LoadedWord(s[12..16]);
  }

  /** What the sender writes, byte by byte: magic number, two zero bytes, length, check sum and length, low bytes
    * first, and the body. */
  lemma FrameBytes(body: seq<byte>)
    requires |body| <= 1048576
    ensures var s := Frame(body);
      && |s| == 16 + |body|
      && s[0] == 0xF7 && s[1] == 0x25 && s[2] == 0 && s[3] == 0
      && s[4] as int + 256 * s[5] as int + 65536 * s[6] as int + 16777216 * s[7] as int == |body|
      && s[8] as int + 256 * s[9] as int + 65536 * s[10] as int + 16777216 * s[11] as int == ByteSum(body)
      && s[12] as int + 256 * s[13] as int + 65536 * s[14] as int + 16777216 * s[15] as int == |body|
      && s[16..] == body
  {
    hide EncodeHeader, DecodeHeader, CheckSum, ByteSum;
    var h := Header(HEADER_FLAG, 0, 0, |body|, CheckSum(body), |body|);
    DecodeEncode(h);
    CheckSumNeverWraps(body);
    HeaderWords(EncodeHeader(h));
    var s := Frame(body);
    assert forall i :: 0 <= i < 16 ==> s[i] == EncodeHeader(h)[i];
  }

  /** What the receiver makes of any bytes at the front of a stream. */
  lemma FrontOfBytes(s: seq<byte>, m: nat)
    ensures FrontOf(s, m) ==
      if |s| < 16 then Stop(NeedMore, 0)
      else
        var len := s[4] as int + 256 * s[5] as int + 65536 * s[6] as int + 16777216 * s[7] as int;
        var sum := s[8] as int + 256 * s[9] as int + 65536 * s[10] as int + 16777216 * s[11] as int;
        if s[0] != 0xF7 || s[1] != 0x25 then Stop(BadFlag, 0)
        else if len > 1048576 then Stop(TooLong, 0)
        else if len > 1048484 || m == 0 then Stop(NoMemory, 0)
        else if |s| < 16 + len then Stop(NeedMore, 0)
        else if ByteSum(s[16..16 + len]) != sum then Stop(BadSum, 16 + len)
        else if s[2] != 0 || s[3] != 0 then Stop(NoCodec, 16 + len)
        else Packet(s[16..16 + len])
  {
    hide DecodeHeader, CheckSum, ByteSum;
    if |s| >= 16 {
      var t, h := s[..16], DecodeHeader(s[..16]);
      HeaderWords(t);
      assert forall i :: 0 <= i < 16 ==> s[i] == t[i];
      if h.dataLen <= 1048484 && 16 + h.dataLen <= |s| {
        CheckSumNeverWraps(s[16..16 + h.dataLen]);
      }
    }
  }

  /** So whatever peer sends a header that reads so, followed by the bytes it speaks of: the packet is cut out. */
  lemma PeerPacket(s: seq<byte>, body: seq<byte>, tail: seq<byte>, m: nat)
    requires m > 0 && |body| <= 1048484 && |s| == 16
    requires s[0] == 0xF7 && s[1] == 0x25 && s[2] == 0 && s[3] == 0
    requires s[4] as int + 256 * s[5] as int + 65536 * s[6] as int + 16777216 * s[7] as int == |body|
    requires s[8] as int + 256 * s[9] as int + 65536 * s[10] as int + 16777216 * s[11] as int == ByteSum(body)
    ensures FrontOf(s + body + tail, m) == Packet(body)
    ensures Parse(s + body + tail, m) == Parse(tail, m - 1).After([body])
  {
    hide FrontOf, ByteSum;
    var stream := s + body + tail;
    FrontOfBytes(stream, m);
    assert forall i :: 0 <= i < 16 ==> stream[i] == s[i];
    assert stream[16..16 + |body|] == body && stream[16 + |body|..] == tail;
  }

  /** A packet with any check sum but the right one is dropped as a whole. */
  lemma FrontOfSpoiled(body: seq<byte>, sum: nat, m: nat)
    requires CacheServes(MESSAGE_HEAD + |body|, m) && sum < 0x1_0000_0000 && sum != CheckSum(body)
    ensures var s := EncodeHeader(Header(HEADER_FLAG, 0, 0, |body|, sum, |body|)) + body;
      FrontOf(s, m) == Stop(BadSum, |s|)
  {
    var h := Header(HEADER_FLAG, 0, 0, |body|, sum, |body|);
    var s := EncodeHeader(h) + body;
    DecodeEncode(h);
    assert s[..HEADER_LEN] == EncodeHeader(h) && s[HEADER_LEN..|s|] == body;
  }

  lemma FrameAllSplits(a: seq<seq<byte>>, b: seq<seq<byte>>)
    ensures FrameAll(a + b) == FrameAll(a) + FrameAll(b)
  {
    if |a| == 0 {
      assert a + b == b;
    } else {
      assert (a + b)[1..] == a[1..] + b;
      FrameAllSplits(a[1..], b);
    }
  }

  /** One pass over s with memory for m messages finds exactly the first k packets. It stops for want of
    * memory only after m of them or at a body for which no message buffer is big enough, and otherwise leaves
    * no more than a proper piece of the next packet. */
  ghost predicate CutsAt(s: seq<byte>, m: nat, bodies: seq<seq<byte>>, k: nat)
    requires k <= |bodies|
  {
    var p := Parse(s, m);
    && p.bodies == bodies[..k]
    && (forall i :: 0 <= i < k ==> FitsMessage(|bodies[i]|))
    && s == FrameAll(bodies[..k]) + p.rest
    && (p.status == NeedMore || p.status == NoMemory)
    && (p.status == NoMemory ==> k == m || (k < |bodies| && !FitsMessage(|bodies[k]|)))
    && (p.status == NeedMore ==> if k == |bodies| then p.rest == [] else |p.rest| < |Frame(bodies[k])|)
  }

  /** Whatever prefix of the framed packets has arrived, one pass finds exactly the packets that are
    * complete in it. */
  lemma {:induction false} ParsePrefix(bodies: seq<seq<byte>>, s: seq<byte>, m: nat) returns (k: nat)
    requires forall b | b in bodies :: |b| <= MAX_CACHE_SIZE
    requires s <= FrameAll(bodies)
    ensures k <= |bodies| && CutsAt(s, m, bodies, k)
    decreases |bodies|
  {
    hide Parse, Frame;
    if |bodies| == 0 || |s| < |Frame(bodies[0])| || m == 0 || !FitsMessage(|bodies[0]|) {
      k := 0;
      ParsePiece(if |bodies| == 0 then [] else bodies[0], s, m);
    } else {
      var f := Frame(bodies[0]);
      var tail := s[|f|..];
      assert s == f + tail;
      ParseOneMore(bodies[0], tail, m);
      var k' := ParsePrefix(bodies[1..], tail, m - 1);
      k := k' + 1;
      CutOneMore(bodies, tail, m, k');
    }
  }

  lemma ParsePiece(body: seq<byte>, s: seq<byte>, m: nat)
    requires |body| <= MAX_CACHE_SIZE && (s <= Frame(body) || Frame(body) <= s)
    requires m == 0 || |s| < |Frame(body)| || !FitsMessage(|body|)
    ensures Parse(s, m).bodies == [] && Parse(s, m).rest == s
    ensures Parse(s, m).status == NeedMore || Parse(s, m).status == NoMemory
    ensures Parse(s, m).status == NeedMore ==> |s| < |Frame(body)|
    ensures Parse(s, m).status == NoMemory ==> m == 0 || !FitsMessage(|body|)
  {
    hide FrontOf, Frame;
    FrontOfFrame(body, s, m);
  }

  lemma ParseOneMore(body: seq<byte>, tail: seq<byte>, m: nat)
    requires |body| <= MAX_CACHE_SIZE && FitsMessage(|body|) && m > 0
    ensures Parse(Frame(body) + tail, m) == Parse(tail, m - 1).After([body])
  {
    hide FrontOf, Frame;
    var s := Frame(body) + tail;
    FrontOfFrame(body, s, m);
    assert s[HEADER_LEN + |body|..] == tail;
  }

  lemma CutOneMore(bodies: seq<seq<byte>>, tail: seq<byte>, m: nat, k: nat)
    requires m > 0 && k < |bodies| && FitsMessage(|bodies[0]|) && CutsAt(tail, m - 1, bodies[1..], k)
    requires Parse(Frame(bodies[0]) + tail, m) == Parse(tail, m - 1).After([bodies[0]])
    ensures CutsAt(Frame(bodies[0]) + tail, m, bodies, k + 1)
  {
    hide Parse, Frame, FitsMessage;
    var first := bodies[..k + 1];
    TailOfTake(bodies, k);
    assert FrameAll(first) == Frame(bodies[0]) + FrameAll(first[1..]);
  }

  lemma TailOfTake(bodies: seq<seq<byte>>, k: nat)
    requires k < |bodies|
    ensures bodies[..k + 1][1..] == bodies[1..][..k]
  {}

  /** How many buffers the cache has matters only when the pass runs out of them: one more than messages is
    * enough. A body too big for any buffer stops the pass whatever the supply. */
  lemma {:induction false} EnoughMemory(s: seq<byte>, m: nat, m': nat)
    requires |Parse(s, m).bodies| < m || Parse(s, m).status != NoMemory
    requires |Parse(s, m).bodies| < m'
    ensures Parse(s, m') == Parse(s, m)
    decreases |s|
  {
    hide FrontOf;
    FrontMemory(s, m, m');
    if FrontOf(s, m).Packet? {
      EnoughMemory(s[HEADER_LEN + |FrontOf(s, m).body|..], m - 1, m' - 1);
    }
  }

  lemma FrontMemory(s: seq<byte>, m: nat, m': nat)
    requires m' > 0 && (m > 0 || FrontOf(s, m) != Stop(NoMemory, 0))
    ensures FrontOf(s, m') == FrontOf(s, m)
  {}
}
