/** Snappy's variable-length encoding of 32-bit integers: seven bits a byte, low bits first, the high bit set
  * on every byte but the last. */
module Varint {
  import opened LittleEndian

  const MAX32: nat := 0x1_0000_0000

  function Encoding(v: nat): (s: seq<byte>)
    ensures |s| > 0
  {
    if v < 128 then [v] else [128 + v % 128] + Encoding(v / 128)
  }

  datatype Result = Fail | Done(value: nat, used: nat)

  /** What stands at the front of s, after k bytes of the same number. The fifth byte may add four bits only. */
  function Decoding(s: seq<byte>, k: nat): (r: Result)
    requires k <= 4
    ensures r.Done? ==> 0 < r.used <= |s| && k + r.used <= 5
    decreases 4 - k
  {
    if |s| == 0 then Fail
    else if k == 4 then if s[0] < 16 then Done(s[0], 1) else Fail
    else if s[0] < 128 then Done(s[0], 1)
    else
      match Decoding(s[1..], k + 1)
      case Fail => Fail
      case Done(value, used) => Done(s[0] % 128 + 128 * value, used + 1)
  }

  // one more than the largest value that k bytes leave room for
  function Room(k: nat): (n: nat)
    requires k <= 4
    ensures n >= 16
    decreases 4 - k
  {
    if k == 4 then 16 else 128 * Room(k + 1)
  }

  lemma AllRoom()
    ensures Room(0) == MAX32
  {
    assert Room(2) == 128 * (128 * 16);
  }

  lemma {:induction false} DecodingBound(s: seq<byte>, k: nat)
    requires k <= 4 && Decoding(s, k).Done?
    ensures Decoding(s, k).value < Room(k)
    decreases 4 - k
  {
    if k < 4 && s[0] >= 128 {
      DecodingBound(s[1..], k + 1);
    }
  }

  lemma {:induction false} RoundTripAt(v: nat, tail: seq<byte>, k: nat)
    requires k <= 4 && v < Room(k)
    ensures Decoding(Encoding(v) + tail, k) == Done(v, |Encoding(v)|)
    decreases 4 - k
  {
    if v >= 128 {
      RoundTripAt(v / 128, tail, k + 1);
      assert (Encoding(v) + tail)[1..] == Encoding(v / 128) + tail;
    }
  }

  /** Decoding gives back the number and finds where its encoding ends, whatever follows. */
  lemma RoundTrip(v: nat, tail: seq<byte>)
    requires v < MAX32
    ensures Decoding(Encoding(v) + tail, 0) == Done(v, |Encoding(v)|) && |Encoding(v)| <= 5
  {
    AllRoom();
    RoundTripAt(v, tail, 0);
  }

  /** No proper beginning of an encoding decodes to anything. */
  lemma {:induction false} PrefixFails(v: nat, n: nat, k: nat)
    requires k <= 4 && v < Room(k) && n < |Encoding(v)|
    ensures Decoding(Encoding(v)[..n], k) == Fail
    decreases 4 - k
  {
    if n > 0 {
      PrefixFails(v / 128, n - 1, k + 1);
      assert Encoding(v)[..n][1..] == Encoding(v / 128)[..n - 1];
    }
  }

  /** Not everything that decodes is an encoding; it is one exactly if it does not end in a needless zero. */
  lemma {:induction false} CanonicalIff(s: seq<byte>, k: nat)
    requires k <= 4 && Decoding(s, k).Done?
    ensures var r := Decoding(s, k);
      s[..r.used] == Encoding(r.value) <==> r.used == 1 || s[r.used - 1] != 0
    decreases 4 - k
  {
    hide Encoding;
    var r := Decoding(s, k);
    EncodingShort(r.value);
    if k < 4 && s[0] >= 128 {
      var t := Decoding(s[1..], k + 1);
      CanonicalIff(s[1..], k + 1);
      EncodingShort(t.value);
      assert s[..r.used] == [s[0]] + s[1..][..t.used] && s[..r.used][1..] == s[1..][..t.used];
      assert s[r.used - 1] == s[1..][t.used - 1];
      EncodingZero(r.value, s[0], t.value);
      assert t.value != 0 ==> Encoding(r.value)[1..] == Encoding(t.value);
    } else {
      assert s[..1] == [s[0]];
    }
  }

  lemma EncodingShort(v: nat)
    ensures v < 128 ==> Encoding(v) == [v]
  {}

  lemma EncodingZero(v: nat, b: byte, high: nat)
    requires b >= 128 && v == b % 128 + 128 * high
    ensures Encoding(v) == if high == 0 then [b - 128] else [b] + Encoding(high)
  {}

  // ----- the bytes, in plain arithmetic

  /** How many bytes a number takes. */
  lemma EncodingLength(v: nat)
    requires v < MAX32
    ensures |Encoding(v)| == if v < 128 then 1 else if v < 16384 then 2 else if v < 2097152 then 3
                             else if v < 268435456 then 4 else 5
  {
    hide Encoding, OrHigh;
    Bytes(v);
  }

  // what is left of v after i digits to the base 128
  function Shifted(v: nat, i: nat): nat { if i == 0 then v else Shifted(v / 128, i - 1) }

  /** The low seven bits of the bytes are the number's digits to the base 128, lowest first; the high bit is set on all
    * but the last. */
  lemma {:induction false} EncodingBytes(v: nat, i: nat)
    requires i < |Encoding(v)|
    ensures Encoding(v)[i] == Shifted(v, i) % 128 + if i < |Encoding(v)| - 1 then 128 else 0
  {
    if v >= 128 && i > 0 {
      EncodingBytes(v / 128, i - 1);
    }
  }

  lemma {:induction false} ShiftedMore(v: nat, i: nat)
    ensures Shifted(v, 0) == v && Shifted(v, i + 1) == Shifted(v, i) / 128
  {
    if i > 0 {
      ShiftedMore(v / 128, i - 1);
    }
  }

  lemma ShiftedAre(v: nat)
    ensures Shifted(v, 0) == v && Shifted(v, 1) == v / 128 && Shifted(v, 2) == v / 16384
    ensures Shifted(v, 3) == v / 2097152 && Shifted(v, 4) == v / 268435456
  {
    hide Shifted;
    ShiftedMore(v, 0);
    ShiftedMore(v, 1);
    ShiftedMore(v, 2);
    ShiftedMore(v, 3);
  }

  // the number whose digits are the low seven bits of bytes k to n - 1, lowest first
  function Digits(s: seq<byte>, k: nat, n: nat): nat
    requires k < n <= |s|
    decreases n - k
  {
    s[k] % 128 + if k + 1 < n then 128 * Digits(s, k + 1, n) else 0
  }

  lemma DigitsAre(s: seq<byte>, n: nat)
    requires 0 < n <= 5 && n <= |s|
    ensures Digits(s, 0, n) == s[0] as int % 128
      + (if n > 1 then 128 * (s[1] as int % 128) else 0)
      + (if n > 2 then 16384 * (s[2] as int % 128) else 0)
      + (if n > 3 then 2097152 * (s[3] as int % 128) else 0)
      + (if n > 4 then 268435456 * (s[4] as int % 128) else 0)
  {
    assert n > 1 ==> Digits(s, 1, n) == s[1] % 128 + if n > 2 then 128 * Digits(s, 2, n) else 0;
    assert n > 2 ==> Digits(s, 2, n) == s[2] % 128 + if n > 3 then 128 * Digits(s, 3, n) else 0;
    assert n > 3 ==> Digits(s, 3, n) == s[3] % 128 + if n > 4 then 128 * Digits(s, 4, n) else 0;
  }

  /** What the decoder makes of any bytes. If the n-th of the first five is the first one without its high bit, it
    * takes them up to that one, but fails if that is the fifth and has more than four bits. */
  lemma DecodingBytes(s: seq<byte>, n: nat)
    requires 0 < n <= 5 && n <= |s| && s[n - 1] < 128 && forall i :: 0 <= i < n - 1 ==> s[i] >= 128
    ensures Decoding(s, 0) == if n < 5 || s[4] < 16 then Done(Digits(s, 0, n), n) else Fail
  {
    assert s[0..] == s;
    DecodingFrom(s, n, 0);
  }

  lemma {:induction false} DecodingFrom(s: seq<byte>, n: nat, k: nat)
    requires k < n <= 5 && n <= |s| && s[n - 1] < 128 && forall i :: 0 <= i < n - 1 ==> s[i] >= 128
    ensures Decoding(s[k..], k) == if n < 5 || s[4] < 16 then Done(Digits(s, k, n), n - k) else Fail
    decreases n - k
  {
    assert s[k..][1..] == s[k + 1..];
    if k + 1 < n {
      DecodingFrom(s, n, k + 1);
    }
  }

  /** It fails if all of them, or the first five, have it. */
  lemma DecodingFails(s: seq<byte>, n: nat)
    requires n == (if |s| < 5 then |s| else 5) && forall i :: 0 <= i < n ==> s[i] >= 128
    ensures Decoding(s, 0) == Fail
  {
    assert s[0..] == s;
    FailsFrom(s, n, 0);
  }

  lemma {:induction false} FailsFrom(s: seq<byte>, n: nat, k: nat)
    requires n == (if |s| < 5 then |s| else 5) && forall i :: 0 <= i < n ==> s[i] >= 128
    requires k <= n && k <= 4
    ensures Decoding(s[k..], k) == Fail
    decreases 4 - k
  {
    if k < n && k < 4 {
      assert s[k..][1..] == s[k + 1..];
      FailsFrom(s, n, k + 1);
    }
  }

  // ----- streams of numbers

  function EncodeAll(vs: seq<nat>): seq<byte> {
    if |vs| == 0 then [] else Encoding(vs[0]) + EncodeAll(vs[1..])
  }

  datatype Option = None | Some(vs: seq<nat>)

  /** The numbers s consists of, to its last byte, or None. */
  function DecodeAll(s: seq<byte>): Option
    decreases |s|
  {
    if |s| == 0 then Some([])
    else
      match Decoding(s, 0)
      case Fail => None
      case Done(value, used) =>
        (match DecodeAll(s[used..])
         case None => None
         case Some(vs) => Some([value] + vs))
  }

  lemma {:induction false} StreamRoundTrip(vs: seq<nat>)
    requires forall i :: 0 <= i < |vs| ==> vs[i] < MAX32
    ensures DecodeAll(EncodeAll(vs)) == Some(vs)
  {
    if |vs| > 0 {
      var tail := EncodeAll(vs[1..]);
      RoundTrip(vs[0], tail);
      assert (Encoding(vs[0]) + tail)[|Encoding(vs[0])|..] == tail;
      StreamRoundTrip(vs[1..]);
      assert [vs[0]] + vs[1..] == vs;
    }
  }

  // ----- the two routines

  // v | 128
  function OrHigh(v: nat): nat {
    if (v / 128) % 2 == 1 then v else v + 128
  }

  // stored through an unsigned char pointer
  function Byte(v: nat): byte { v % 256 }

  lemma HighByte(v: nat)
    ensures Byte(OrHigh(v)) == 128 + v % 128
  {}

  lemma EncodingStep(v: nat)
    requires v >= 128
    ensures Encoding(v) == [Byte(OrHigh(v))] + Encoding(v / 128)
  {
    HighByte(v);
  }

  /** Writes the encoding to ptr and returns the position behind it. */
  method Encode32(buf: array<byte>, ptr: nat, v: nat) returns (end: nat)
    requires v < MAX32 && ptr + |Encoding(v)| <= buf.Length
    modifies buf
    ensures buf[..] == old(buf[..ptr]) + Encoding(v) + old(buf[ptr + |Encoding(v)|..])
    ensures end == ptr + |Encoding(v)|
  {
    hide Encoding, OrHigh;
    var v7, v14, v21, v28 := v / 128, v / 16384, v / 2097152, v / 268435456;
    Bytes(v);
    if v < 128 {
      buf[ptr] := Byte(v);
      end := ptr + 1;
    } else if v < 16384 {
      buf[ptr] := Byte(OrHigh(v));
      buf[ptr + 1] := Byte(v7);
      end := ptr + 2;
    } else if v < 2097152 {
      buf[ptr] := Byte(OrHigh(v));
      buf[ptr + 1] := Byte(OrHigh(v7));
      buf[ptr + 2] := Byte(v14);
      end := ptr + 3;
    } else if v < 268435456 {
      buf[ptr] := Byte(OrHigh(v));
      buf[ptr + 1] := Byte(OrHigh(v7));
      buf[ptr + 2] := Byte(OrHigh(v14));
      buf[ptr + 3] := Byte(v21);
      end := ptr + 4;
    } else {
      buf[ptr] := Byte(OrHigh(v));
      buf[ptr + 1] := Byte(OrHigh(v7));
      buf[ptr + 2] := Byte(OrHigh(v14));
      buf[ptr + 3] := Byte(OrHigh(v21));
      buf[ptr + 4] := Byte(v28);
      end := ptr + 5;
    }
  }

  /** The five shapes of an encoding. */
  lemma Bytes(v: nat)
    requires v < MAX32
    ensures v < 128 ==> Encoding(v) == [Byte(v)]
    ensures 128 <= v < 16384 ==> Encoding(v) == [Byte(OrHigh(v)), Byte(v / 128)]
    ensures 16384 <= v < 2097152 ==> Encoding(v) == [Byte(OrHigh(v)), Byte(OrHigh(v / 128)), Byte(v / 16384)]
    ensures 2097152 <= v < 268435456 ==>
      Encoding(v) == [Byte(OrHigh(v)), Byte(OrHigh(v / 128)), Byte(OrHigh(v / 16384)), Byte(v / 2097152)]
    ensures 268435456 <= v ==>
      Encoding(v) == [Byte(OrHigh(v)), Byte(OrHigh(v / 128)), Byte(OrHigh(v / 16384)), Byte(OrHigh(v / 2097152)),
                      Byte(v / 268435456)]
  {
    hide OrHigh;
    assert v / 128 / 128 == v / 16384 && v / 16384 / 128 == v / 2097152 && v / 2097152 / 128 == v / 268435456;
    if v >= 128 {
      EncodingStep(v);
    }
    if v >= 16384 {
      EncodingStep(v / 128);
    }
    if v >= 2097152 {
      EncodingStep(v / 16384);
    }
    if v >= 268435456 {
      EncodingStep(v / 2097152);
    }
  }

  function Times(a: nat, b: nat): nat { a * b }

  // what is still to come after n bytes, with what these bring in
  function Continued(s: seq<byte>, n: nat, low: nat, scale: nat): Result
    requires n <= 4 && n <= |s|
  {
    match Decoding(s[n..], n)
    case Fail => Fail
    case Done(value, used) => Done(low + Times(scale, value), n + used)
  }

  lemma Started(s: seq<byte>)
    ensures Continued(s, 0, 0, 1) == Decoding(s, 0)
  {
    assert s[0..] == s;
  }

  // (b & 127) << shift, or-ed into a result whose bits at shift and above are clear
  function OrIn(result: nat, b: byte, scale: nat): nat {
    var low: int := b % 128;
    result + scale * low
  }

  lemma OneMore(s: seq<byte>, n: nat, low: nat, scale: nat)
    requires n < 4 && n < |s|
    ensures s[n] < 128 ==> Continued(s, n, low, scale) == Done(OrIn(low, s[n], scale), n + 1)
    ensures s[n] >= 128 ==> Continued(s, n, low, scale) == Continued(s, n + 1, OrIn(low, s[n], scale), 128 * scale)
  {
    assert s[n..][1..] == s[n + 1..];
    if s[n] >= 128 && Decoding(s[n + 1..], n + 1).Done? {
      var value := Decoding(s[n + 1..], n + 1).value;
      assert scale * (s[n] % 128 + 128 * value) == scale * (s[n] % 128) + 128 * scale * value;
    }
  }

  lemma Stops(s: seq<byte>, n: nat, low: nat, scale: nat)
    requires n <= 4 && n <= |s|
    ensures n == |s| ==> Continued(s, n, low, scale) == Fail
    ensures n == 4 && n < |s| ==>
      Continued(s, n, low, scale) == if s[n] < 16 then Done(OrIn(low, s[n], scale), n + 1) else Fail
  {}

  function Between(buf: seq<byte>, p: nat, limit: nat): seq<byte>
    requires limit <= |buf|
  {
    if p < limit then buf[p..limit] else []
  }

  /** Fail stands for the null pointer; otherwise used is how far the pointer has moved. */
  method Parse32WithLimit(buf: seq<byte>, p: nat, limit: nat) returns (r: Result)
    requires limit <= |buf|
    ensures r == Decoding(Between(buf, p, limit), 0)
    ensures r.Done? ==> r.value < MAX32 && p + r.used <= limit
  {
    hide Room, Decoding;
    ghost var s := Between(buf, p, limit);
    AllRoom();
    if Decoding(s, 0).Done? {
      DecodingBound(s, 0);
    }
    Started(s);
    r := ParseBytes(buf, p, limit);
  }

  method ParseBytes(buf: seq<byte>, p: nat, limit: nat) returns (r: Result)
    requires limit <= |buf|
    ensures r == Continued(Between(buf, p, limit), 0, 0, 1)
  {
    hide Continued, OrIn;
    ghost var s := Between(buf, p, limit);
    var ptr := p;
    Stops(s, 0, 0, 1);
    if ptr >= limit {
      return Fail;
    }
    OneMore(s, 0, 0, 1);
    var b := buf[ptr];
    ptr := ptr + 1;
    var result := OrIn(0, b, 1);
    if b < 128 {
      return Done(result, ptr - p);
    }
    Stops(s, 1, result, 128);
    if ptr >= limit {
      return Fail;
    }
    OneMore(s, 1, result, 128);
    b := buf[ptr];
    ptr := ptr + 1;
    result := OrIn(result, b, 128);
    if b < 128 {
      return Done(result, ptr - p);
    }
    Stops(s, 2, result, 16384);
    if ptr >= limit {
      return Fail;
    }
    OneMore(s, 2, result, 16384);
    b := buf[ptr];
    ptr := ptr + 1;
    result := OrIn(result, b, 16384);
    if b < 128 {
      return Done(result, ptr - p);
    }
    Stops(s, 3, result, 2097152);
    if ptr >= limit {
      return Fail;
    }
    OneMore(s, 3, result, 2097152);
    b := buf[ptr];
    ptr := ptr + 1;
    result := OrIn(result, b, 2097152);
    if b < 128 {
      return Done(result, ptr - p);
    }
    Stops(s, 4, result, 268435456);
    if ptr >= limit {
      return Fail;
    }
    b := buf[ptr];
    ptr := ptr + 1;
    result := OrIn(result, b, 268435456);
    if b < 16 {
      return Done(result, ptr - p);
    }
    r := Fail;
  }
}
