/** Numbered buffers as pieces of one byte stream: what sorting a buffer in and using bytes up at the front
  * does to the contiguous run. The receiver's list and the sender's list both live by these lemmas. */
module Streams {
  import opened LittleEndian
  import opened SortedList
  import opened Buffers

  function Concat(chunks: seq<seq<byte>>): seq<byte> {
    if |chunks| == 0 then [] else chunks[0] + Concat(chunks[1..])
  }

  lemma {:induction false} ConcatSplits(a: seq<seq<byte>>, b: seq<seq<byte>>)
    ensures Concat(a + b) == Concat(a) + Concat(b)
  {
    if |a| == 0 {
      assert a + b == b;
    } else {
      assert (a + b)[1..] == a[1..] + b;
      ConcatSplits(a[1..], b);
    }
  }

  lemma ConcatSlices(chunks: seq<seq<byte>>, i: nat, j: nat, k: nat)
    requires i <= j <= k <= |chunks|
    ensures Concat(chunks[i..k]) == Concat(chunks[i..j]) + Concat(chunks[j..k])
  {
    assert chunks[i..k] == chunks[i..j] + chunks[j..k];
    ConcatSplits(chunks[i..j], chunks[j..k]);
  }

  /** An entry holds the chunk of its number; only the next one in turn may have lost some front part. */
  ghost predicate Content(list: BufList, last: nat, chunks: seq<seq<byte>>) {
    forall x :: x in list ==> Fits(x, last, chunks)
  }

  predicate Fits(x: Entry<Buf>, last: nat, chunks: seq<seq<byte>>) {
    && last < x.num <= |chunks|
    && x.item.data == chunks[x.num - 1]
    && x.item.cur + x.item.len == |x.item.data|
    && (x.num > last + 1 ==> x.item.cur == 0)
  }

  lemma {:induction false} FullBytes(seg: BufList, chunks: seq<seq<byte>>, from: nat)
    requires from + |seg| <= |chunks|
    requires forall i :: 0 <= i < |seg| ==> seg[i].item.Left() == chunks[from + i]
    ensures Bytes(seg) == Concat(chunks[from..from + |seg|])
  {
    if |seg| > 0 {
      FullBytes(seg[1..], chunks, from + 1);
      assert chunks[from..from + |seg|][1..] == chunks[from + 1..from + |seg|];
    }
  }

  /** A buffer that completes leaves the run as it was, or extends it by whole buffers. */
  lemma PushRun(list: BufList, last: nat, chunks: seq<seq<byte>>, num: nat)
    requires Increasing(list) && Content(list, last, chunks)
    requires last < num <= |chunks| && !Has(list, num)
    ensures var list1 := Insert(list, Entry(num, Full(chunks[num - 1])));
      && RunLen(list, last) <= RunLen(list1, last) && last + RunLen(list1, last) <= |chunks|
      && RunBytes(list1, last)
         == RunBytes(list, last) + Concat(chunks[last + RunLen(list, last)..last + RunLen(list1, last)])
  {
    hide Insert, Bytes, Increasing, Content, RunLen;
    var e := Entry(num, Full(chunks[num - 1]));
    var list1, k := Insert(list, e), RunLen(list, last);
    var k1 := RunLen(list1, last);
    PushPrefix(list, last, e);
    PushSegment(list, last, chunks, num);
    assert list1[..k1] == list[..k] + list1[k..k1];
    BytesSplit(list[..k], list1[k..k1]);
  }

  // what the completed buffer adds to the run
  lemma PushSegment(list: BufList, last: nat, chunks: seq<seq<byte>>, num: nat)
    requires Increasing(list) && Content(list, last, chunks)
    requires last < num <= |chunks| && !Has(list, num)
    ensures var list1 := Insert(list, Entry(num, Full(chunks[num - 1])));
      var k, k1 := RunLen(list, last), RunLen(list1, last);
      k <= k1 && last + k1 <= |chunks| && Bytes(list1[k..k1]) == Concat(chunks[last + k..last + k1])
  {
    hide Insert, Bytes, Increasing, Concat;
    var e := Entry(num, Full(chunks[num - 1]));
    var list1, k := Insert(list, e), RunLen(list, last);
    var k1 := RunLen(list1, last);
    PushPrefix(list, last, e);
    var seg := list1[k..k1];
    forall i | 0 <= i < |seg|
      ensures last + 1 + k + i <= |chunks| && seg[i].item.Left() == chunks[last + k + i]
    {
      assert seg[i] == list1[k + i] && list1[k + i] in list1;
      InsertMembers(list, e, seg[i]);
      if seg[i] in list {
        assert Fits(seg[i], last, chunks);
        if seg[i].num == last + 1 {
          FirstInRun(list, last, chunks, seg[i]);
        }
      }
    }
    if k < k1 {
      assert seg[k1 - 1 - k].num == last + k1;
    } else if k > 0 {
      assert list[k - 1] in list && Fits(list[k - 1], last, chunks);
    }
    FullBytes(seg, chunks, last + k);
  }

  lemma FirstInRun(list: BufList, last: nat, chunks: seq<seq<byte>>, x: Entry<Buf>)
    requires Increasing(list) && Content(list, last, chunks) && x in list && x.num == last + 1
    ensures RunLen(list, last) > 0
  {
    var i :| 0 <= i < |list| && list[i] == x;
    assert Fits(list[0], last, chunks);
  }

  lemma PushContent(list: BufList, last: nat, chunks: seq<seq<byte>>, e: Entry<Buf>)
    requires Content(list, last, chunks) && Fits(e, last, chunks)
    ensures Content(Insert(list, e), last, chunks)
  {
    hide Insert, Fits;
    forall x | x in Insert(list, e)
      ensures Fits(x, last, chunks)
    {
      InsertMembers(list, e, x);
    }
  }

  lemma PushPrefix(list: BufList, last: nat, e: Entry<Buf>)
    requires Increasing(list) && last < e.num && !Has(list, e.num)
    ensures var k := RunLen(list, last);
      k <= RunLen(Insert(list, e), last) && Insert(list, e)[..k] == list[..k]
  {
    hide Place, Insert;
    var k, list1 := RunLen(list, last), Insert(list, e);
    NotLast(list, e.num);
    InsertPlaced(list, e);
    RunBeforePlace(list, last, e.num);
    assert list1[..k] == list[..k];
    var k1 := RunLen(list1, last);
    assert forall j :: 0 <= j < k ==> list1[j].num == last + 1 + j;
  }

  lemma NotLast(list: BufList, num: nat)
    requires !Has(list, num)
    ensures !(|list| > 0 && list[|list| - 1].num == num)
  {}

  lemma RunBeforePlace(list: BufList, last: nat, num: nat)
    requires !Has(list, num) && last < num
    ensures RunLen(list, last) <= Place(list, num)
  {
    if num <= last + RunLen(list, last) {
      HasInRun(list, last, num);
    }
  }

  lemma HasInRun(list: BufList, last: nat, num: nat)
    requires last < num <= last + RunLen(list, last)
    ensures Has(list, num)
  {
    assert list[num - last - 1].num == num;
  }

  lemma {:induction false} DropNums(list: BufList, c: nat)
    requires c <= |Bytes(list)|
    ensures forall i :: 0 <= i < |Drop(list, c)| ==> Drop(list, c)[i].num == list[i + |list| - |Drop(list, c)|].num
    ensures forall i :: 0 < i < |Drop(list, c)| ==> Drop(list, c)[i] == list[i + |list| - |Drop(list, c)|]
    ensures |Drop(list, c)| > 0 ==>
      var x, y := Drop(list, c)[0].item, list[|list| - |Drop(list, c)|].item;
      x.data == y.data && x.cur + x.len == y.cur + y.len
  {
    if c > 0 && |list[0].item.Left()| <= c {
      DropNums(list[1..], c - |list[0].item.Left()|);
    }
  }

  // only a buffer of the run can lose bytes
  lemma {:induction false} DropUntouched(list: BufList, last: nat, c: nat)
    requires c <= |RunBytes(list, last)| && c <= |Bytes(list)|
    ensures var rest := Drop(list, c); var d := |list| - |rest|;
      |rest| > 0 && rest[0].num != last + d + 1 ==> rest[0] == list[d]
    decreases |list|
  {
    hide RunBytes;
    RunStep(list, last);
    if c > 0 && |list[0].item.Left()| <= c {
      DropUntouched(list[1..], last + 1, c - |list[0].item.Left()|);
    }
  }

  /** Consuming bytes of the run keeps the contents intact. */
  lemma ConsumeContent(list: BufList, last: nat, c: nat, chunks: seq<seq<byte>>)
    requires c <= |RunBytes(list, last)| && c <= |Bytes(list)| && Increasing(list) && Content(list, last, chunks)
    ensures var rest := Drop(list, c); var last1 := last + |list| - |rest|;
      Increasing(rest) && Content(rest, last1, chunks)
  {
    hide Drop, RunBytes, Bytes, Fits, Content;
    var rest := Drop(list, c);
    var d := |list| - |rest|;
    DropNums(list, c);
    DropRun(list, last, c);
    DropUntouched(list, last, c);
    assert d > 0 ==> list[d - 1].num == last + d;
    forall i | 0 <= i < |rest|
      ensures Fits(rest[i], last + d, chunks)
    {
      assert d > 0 ==> list[d - 1].num < list[i + d].num;
      StillFits(list, last, chunks, rest, d, i);
    }
    AllFit(rest, last + d, chunks);
  }

  lemma AllFit(list: BufList, last: nat, chunks: seq<seq<byte>>)
    requires forall i :: 0 <= i < |list| ==> Fits(list[i], last, chunks)
    ensures Content(list, last, chunks)
  {}

  lemma StillFits(list: BufList, last: nat, chunks: seq<seq<byte>>, rest: BufList, d: nat, i: nat)
    requires Content(list, last, chunks) && i < |rest| && i + d < |list|
    requires rest[i].num == list[i + d].num && (d > 0 ==> last + d < list[i + d].num)
    requires rest[i] == list[i + d] || (i == 0 && rest[0].num == last + d + 1)
    requires var x, y := rest[i].item, list[i + d].item; x.data == y.data && x.cur + x.len == y.cur + y.len
    ensures Fits(rest[i], last + d, chunks)
  {
    assert Fits(list[i + d], last, chunks);
  }

  /** ... and takes out just the numbers it counts as processed. */
  lemma ConsumeNums(list: BufList, last: nat, c: nat)
    requires c <= |RunBytes(list, last)| && c <= |Bytes(list)| && Increasing(list)
    ensures var last1 := last + |list| - |Drop(list, c)|;
      && (forall n :: n > last && !Has(list, n) ==> n > last1)
      && (forall n :: n > last1 ==> (Has(Drop(list, c), n) <==> Has(list, n)))
  {
    hide Drop, RunBytes, Bytes;
    var rest := Drop(list, c);
    var d := |list| - |rest|;
    DropNums(list, c);
    DropRun(list, last, c);
    assert forall i :: 0 <= i < d ==> list[i].num == last + 1 + i;
    forall n | n > last + d && Has(list, n)
      ensures Has(rest, n)
    {
      var j :| 0 <= j < |list| && list[j].num == n;
      assert rest[j - d].num == list[j].num;
    }
    forall n | n > last && !Has(list, n)
      ensures n > last + d
    {
      if n <= last + d {
        HasInRun(list, last, n);
      }
    }
  }

  lemma ContentNums(list: BufList, last: nat, chunks: seq<seq<byte>>)
    requires Content(list, last, chunks)
    ensures forall i :: 0 <= i < |list| ==> last < list[i].num <= |chunks|
  {
    assert forall i :: 0 <= i < |list| ==> Fits(list[i], last, chunks);
  }

  lemma ContentGrows(list: BufList, last: nat, chunks: seq<seq<byte>>, more: seq<seq<byte>>)
    requires Content(list, last, chunks) && chunks <= more
    ensures Content(list, last, more)
  {
    forall x | x in list
      ensures Fits(x, last, more)
    {
      assert Fits(x, last, chunks) && more[x.num - 1] == chunks[x.num - 1];
    }
  }

  /** The run is what is left of the next chunk, and the whole chunks after it. */
  lemma RunParts(list: BufList, last: nat, chunks: seq<seq<byte>>)
    requires Content(list, last, chunks) && RunLen(list, last) > 0
    ensures last + RunLen(list, last) <= |chunks| && list[0].num == last + 1
    ensures list[0].item.cur <= |chunks[last]| && list[0].item.Left() == chunks[last][list[0].item.cur..]
    ensures RunBytes(list, last) == list[0].item.Left() + Concat(chunks[last + 1..last + RunLen(list, last)])
  {
    hide Bytes, Concat;
    var k := RunLen(list, last);
    RunFits(list, last, chunks);
    var rest := list[1..k];
    assert forall i :: 0 <= i < |rest| ==> rest[i] == list[i + 1];
    FullBytes(rest, chunks, last + 1);
    BytesCons(list[..k]);
    assert list[..k][1..] == rest;
  }

  lemma RunFits(list: BufList, last: nat, chunks: seq<seq<byte>>)
    requires Content(list, last, chunks)
    ensures last + RunLen(list, last) <= |chunks| || RunLen(list, last) == 0
    ensures forall i :: 0 <= i < RunLen(list, last) ==>
      var b := list[i].item;
      b.data == chunks[last + i] && b.cur + b.len == |b.data| && (i > 0 ==> b.Left() == chunks[last + i])
  {
    forall i | 0 <= i < RunLen(list, last)
      ensures Fits(list[i], last, chunks)
    {
      assert list[i] in list;
    }
    var k := RunLen(list, last);
    assert k > 0 ==> list[k - 1].num == last + k;
  }

  lemma BytesCons(s: BufList)
    requires |s| > 0
    ensures Bytes(s) == s[0].item.Left() + Bytes(s[1..])
  {}
}
