/** Buffer objects and the byte streams that lists of them stand for. */
module Buffers {
  import opened LittleEndian
  import opened SortedList

  // wsaBuf.buf, wsaBuf.len and nCurDataPointer of a CXBufferObj: `len` bytes from `cur` on are left
  datatype RawBuf = RawBuf(data: seq<byte>, len: nat, cur: nat)
  {
    function Left(): seq<byte>
      requires cur + len <= |data|
    {
      data[cur..cur + len]
    }

    function Advance(n: nat): (b: RawBuf)
      requires cur + len <= |data| && n <= len
      ensures b.cur + b.len <= |b.data| && b.Left() == Left()[n..]
    {
      RawBuf(data, len - n, cur + n)
    }
  }

  type Buf = b: RawBuf | b.cur + b.len <= |b.data| witness RawBuf([], 0, 0)

  function Full(data: seq<byte>): (b: Buf)
    ensures b.Left() == data
  {
    RawBuf(data, |data|, 0)
  }

  type BufList = seq<Entry<Buf>>

  function Bytes(s: BufList): seq<byte> {
    if |s| == 0 then [] else s[0].item.Left() + Bytes(s[1..])
  }

  /** How many leading entries carry the numbers last + 1, last + 2, ... */
  function RunLen(s: BufList, last: nat): (k: nat)
    ensures k <= |s|
    ensures forall i :: 0 <= i < k ==> s[i].num == last + 1 + i
    ensures k < |s| ==> s[k].num != last + 1 + k
  {
    if |s| > 0 && s[0].num == last + 1 then 1 + RunLen(s[1..], last + 1) else 0
  }

  function RunBytes(s: BufList, last: nat): seq<byte> {
    Bytes(s[..RunLen(s, last)])
  }

  /** The list after its first c bytes are used up: buffers used up on the way are gone, and so is the
    * buffer in which the last of these bytes stood if nothing of it is left. */
  function Drop(s: BufList, c: nat): (r: BufList)
    requires c <= |Bytes(s)|
    ensures |r| <= |s|
  {
    if c == 0 then s
    else if |s[0].item.Left()| <= c then Drop(s[1..], c - |s[0].item.Left()|)
    else [s[0].(item := s[0].item.Advance(c))] + s[1..]
  }

  lemma DropNothing(s: BufList)
    ensures Drop(s, 0) == s
  {}

  lemma {:induction false} BytesSplit(a: BufList, b: BufList)
    ensures Bytes(a + b) == Bytes(a) + Bytes(b)
  {
    if |a| == 0 {
      assert a + b == b;
    } else {
      assert (a + b)[1..] == a[1..] + b;
      BytesSplit(a[1..], b);
    }
  }

  lemma {:induction false} DropBytes(s: BufList, c: nat)
    requires c <= |Bytes(s)|
    ensures Bytes(Drop(s, c)) == Bytes(s)[c..]
  {
    if c > 0 {
      var l := s[0].item.Left();
      if |l| <= c {
        DropBytes(s[1..], c - |l|);
      } else {
        assert Drop(s, c)[1..] == s[1..];
      }
    }
  }

  /** Using up bytes in two goes is using them up at once. */
  lemma {:induction false} DropTwice(s: BufList, c: nat, d: nat)
    requires d > 0 && c + d <= |Bytes(s)|
    ensures c <= |Bytes(s)| && d <= |Bytes(Drop(s, c))|
    ensures Drop(Drop(s, c), d) == Drop(s, c + d)
  {
    DropBytes(s, c);
    if c > 0 {
      var l := s[0].item.Left();
      if |l| <= c {
        DropTwice(s[1..], c - |l|, d);
      } else {
        DropInside(s, c, d);
      }
    }
  }

  // the first go stays inside the first buffer
  lemma DropInside(s: BufList, c: nat, d: nat)
    requires 0 < d && c + d <= |Bytes(s)| && |s| > 0 && 0 < c < |s[0].item.Left()|
    ensures d <= |Bytes(Drop(s, c))| && Drop(Drop(s, c), d) == Drop(s, c + d)
  {
    hide Bytes;
    DropBytes(s, c);
    var l, t := s[0].item.Left(), Drop(s, c);
    assert t[1..] == s[1..];
    assert t[0].item.Left() == l[c..];
    if d < |l| - c {
      assert t[0].item.Advance(d) == s[0].item.Advance(c + d);
    }
  }

  lemma RunStep(s: BufList, last: nat)
    ensures RunBytes(s, last) == if |s| > 0 && s[0].num == last + 1
                                 then s[0].item.Left() + RunBytes(s[1..], last + 1) else []
  {
    var k := RunLen(s, last);
    if k > 0 {
      assert s[..k][1..] == s[1..][..k - 1];
    }
  }

  /** What a run loses at the front, the number of its last processed buffer gains. */
  lemma {:induction false} DropRun(s: BufList, last: nat, c: nat)
    requires c <= |RunBytes(s, last)|
    ensures c <= |Bytes(s)| && |s| - |Drop(s, c)| <= RunLen(s, last)
    ensures RunBytes(Drop(s, c), last + |s| - |Drop(s, c)|) == RunBytes(s, last)[c..]
    decreases |s|
  {
    hide RunBytes;
    RunStep(s, last);
    if c > 0 {
      var l := s[0].item.Left();
      if |l| <= c {
        DropRun(s[1..], last + 1, c - |l|);
      } else {
        DropRun(s[1..], last + 1, 0);
        var t := Drop(s, c);
        RunStep(t, last);
        assert t[1..] == s[1..];
      }
    }
  }

  /** The run around one of its buffers. */
  lemma {:induction false} RunAt(s: BufList, last: nat, i: nat)
    requires i < RunLen(s, last)
    ensures Bytes(s[..i + 1]) == Bytes(s[..i]) + s[i].item.Left()
    ensures Bytes(s[..i]) + s[i].item.Left() <= RunBytes(s, last)
  {
    var k := RunLen(s, last);
    assert s[..i + 1] == s[..i] + [s[i]];
    BytesSplit(s[..i], [s[i]]);
    assert [s[i]][1..] == [];
    assert s[..k] == s[..i + 1] + s[i + 1..k];
    BytesSplit(s[..i + 1], s[i + 1..k]);
  }

  /** Using up everything before buffer i and t bytes of it. */
  lemma {:induction false} DropAt(s: BufList, i: nat, t: nat)
    requires i < |s| && 0 < t <= |s[i].item.Left()|
    ensures |Bytes(s[..i])| + t <= |Bytes(s)|
    ensures Drop(s, |Bytes(s[..i])| + t)
         == if t == |s[i].item.Left()| then s[i + 1..] else [s[i].(item := s[i].item.Advance(t))] + s[i + 1..]
  {
    if i > 0 {
      assert s[..i][1..] == s[1..][..i - 1];
      DropAt(s[1..], i - 1, t);
    }
  }

  lemma {:induction false} DropRunLen(s: BufList, last: nat, c: nat)
    requires c <= |RunBytes(s, last)|
    ensures c <= |Bytes(s)| && |s| - |Drop(s, c)| <= RunLen(s, last)
    ensures RunLen(Drop(s, c), last + |s| - |Drop(s, c)|) == RunLen(s, last) - (|s| - |Drop(s, c)|)
    decreases |s|
  {
    hide RunBytes, Bytes, RunLen, Drop;
    DropRun(s, last, c);
    DropNothing(s);
    if c > 0 {
      RunStep(s, last);
      DropRunLenStep(s, last, c);
      if |s[0].item.Left()| <= c {
        DropRunLen(s[1..], last + 1, c - |s[0].item.Left()|);
      }
    }
  }

  lemma DropRunLenStep(s: BufList, last: nat, c: nat)
    requires 0 < c <= |Bytes(s)| && s[0].num == last + 1
    ensures RunLen(s, last) == 1 + RunLen(s[1..], last + 1)
    ensures |s[0].item.Left()| <= c ==> Drop(s, c) == Drop(s[1..], c - |s[0].item.Left()|)
    ensures |s[0].item.Left()| > c ==> |Drop(s, c)| == |s| && RunLen(Drop(s, c), last) == RunLen(s, last)
  {
    if |s[0].item.Left()| > c {
      assert Drop(s, c)[1..] == s[1..];
    }
  }

  // ----- lists without an empty buffer

  predicate AllLeft(s: BufList) { forall i :: 0 <= i < |s| ==> s[i].item.len > 0 }

  lemma InsertNonEmpty(s: BufList, e: Entry<Buf>)
    requires AllLeft(s) && e.item.len > 0
    ensures AllLeft(Insert(s, e))
  {}

  lemma {:induction false} DropNonEmpty(s: BufList, c: nat)
    requires c <= |Bytes(s)| && AllLeft(s)
    ensures AllLeft(Drop(s, c))
  {
    if c > 0 && |s[0].item.Left()| <= c {
      DropNonEmpty(s[1..], c - |s[0].item.Left()|);
    }
  }
}
