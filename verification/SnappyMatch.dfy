/** Snappy's search for the length of a match, eight or four bytes at a time. */
module SnappyMatch {
  import opened LittleEndian
  import opened Bits

  /** Bitwise exclusive or. */
  function Xor(a: nat, b: nat): nat
  {
    if a == 0 && b == 0 then 0 else (a + b) % 2 + 2 * Xor(a / 2, b / 2)
  }

  // the k lowest bits
  function Low(n: nat, k: nat): nat { n % Pow2(k) }

  lemma LowHalf(n: nat, k: nat)
    ensures Low(n, 0) == 0
    ensures k > 0 ==> Low(n, k) == n % 2 + 2 * Low(n / 2, k - 1)
  {
    if k > 0 {
      HalfModulo(n, k);
    }
  }

  /** The low bits of the exclusive or are clear exactly if the low bits agree. */
  lemma {:induction false} XorLow(a: nat, b: nat, k: nat)
    ensures Low(Xor(a, b), k) == 0 <==> Low(a, k) == Low(b, k)
  {
    hide Xor, Low;
    LowHalf(a, k);
    LowHalf(b, k);
    LowHalf(Xor(a, b), k);
    if k > 0 {
      XorHalf(a, b);
      XorLow(a / 2, b / 2, k - 1);
    }
  }

  lemma XorHalf(a: nat, b: nat)
    ensures Xor(a, b) / 2 == Xor(a / 2, b / 2) && Xor(a, b) % 2 == (a + b) % 2
  {}

  lemma {:induction false} XorZero(a: nat, b: nat)
    ensures Xor(a, b) == 0 <==> a == b
  {
    if a > 0 || b > 0 {
      XorZero(a / 2, b / 2);
    }
  }

  lemma {:induction false} XorBound(a: nat, b: nat, k: nat)
    requires a < Pow2(k) && b < Pow2(k)
    ensures Xor(a, b) < Pow2(k)
  {
    if k > 0 {
      XorBound(a / 2, b / 2, k - 1);
    }
  }

  lemma {:induction false} BytesOfBits(k: nat)
    ensures Pow256(k) == Pow2(8 * k)
  {
    if k > 0 {
      BytesOfBits(k - 1);
      Pow2Sum(8, 8 * (k - 1));
      assert Pow2(8) == 256;
    }
  }

  /** The first k bytes agree exactly if the lowest set bit of the exclusive or lies beyond them. */
  lemma PrefixAgrees(s: seq<byte>, t: seq<byte>, k: nat)
    requires |s| == |t| && s != t && k <= |s|
    ensures Xor(Load(s), Load(t)) > 0
    ensures s[..k] == t[..k] <==> 8 * k <= Tz(Xor(Load(s), Load(t)))
  {
    hide Tz, Xor, Load, Pow2, Pow256;
    LoadInjective(s, t);
    XorZero(Load(s), Load(t));
    LoadPrefix(s, k);
    LoadPrefix(t, k);
    LoadInjective(s[..k], t[..k]);
    BytesOfBits(k);
    XorLow(Load(s), Load(t), 8 * k);
    TzDivides(Xor(Load(s), Load(t)), 8 * k);
  }

  /** Dividing the lowest set bit's position by 8 finds the first byte where two words differ. */
  lemma FirstDifference(s: seq<byte>, t: seq<byte>)
    requires |s| == |t| && s != t
    ensures Xor(Load(s), Load(t)) > 0
    ensures var k := Tz(Xor(Load(s), Load(t))) / 8;
      k < |s| && s[..k] == t[..k] && s[k] != t[k]
  {
    hide Tz, Xor, Load;
    PrefixAgrees(s, t, 0);
    var k := Tz(Xor(Load(s), Load(t))) / 8;
    PrefixAgrees(s, t, |s|);
    assert s[..|s|] == s && t[..|t|] == t;
    PrefixAgrees(s, t, k);
    PrefixAgrees(s, t, k + 1);
    assert s[..k + 1] == s[..k] + [s[k]] && t[..k + 1] == t[..k] + [t[k]];
  }

  /** n bytes from p on equal those from q on. */
  ghost predicate Agree(buf: seq<byte>, p: nat, q: nat, n: nat) {
    p + n <= |buf| && q + n <= |buf| && buf[p..p + n] == buf[q..q + n]
  }

  /** n bytes from s1 on equal those from s2 on, and no more do before limit. */
  ghost predicate Longest(buf: seq<byte>, s1: nat, s2: nat, limit: nat, n: nat)
    requires s2 <= limit <= |buf| && s1 + (limit - s2) <= |buf|
  {
    n <= limit - s2 && Agree(buf, s1, s2, n) && (n < limit - s2 ==> buf[s1 + n] != buf[s2 + n])
  }

  lemma LongestUnique(buf: seq<byte>, s1: nat, s2: nat, limit: nat, n: nat, n': nat)
    requires s2 <= limit <= |buf| && s1 + (limit - s2) <= |buf|
    requires Longest(buf, s1, s2, limit, n) && Longest(buf, s1, s2, limit, n')
    ensures n == n'
  {
    if n < n' {
      AgreeAt(buf, s1, s2, n', n);
    } else if n' < n {
      AgreeAt(buf, s1, s2, n, n');
    }
  }

  lemma AgreeAt(buf: seq<byte>, p: nat, q: nat, n: nat, i: nat)
    requires Agree(buf, p, q, n) && i < n
    ensures buf[p + i] == buf[q + i]
  {
    assert buf[p..p + n][i] == buf[q..q + n][i];
  }

  lemma AgreeMore(buf: seq<byte>, p: nat, q: nat, n: nat, k: nat)
    requires Agree(buf, p, q, n) && Agree(buf, p + n, q + n, k)
    ensures Agree(buf, p, q, n + k)
  {
    assert buf[p..p + n + k] == buf[p..p + n] + buf[p + n..p + n + k];
    assert buf[q..q + n + k] == buf[q..q + n] + buf[q + n..q + n + k];
  }

  lemma AgreeOne(buf: seq<byte>, p: nat, q: nat)
    requires p < |buf| && q < |buf|
    ensures Agree(buf, p, q, 0) && (Agree(buf, p, q, 1) <==> buf[p] == buf[q])
  {
    assert buf[p..p + 1] == [buf[p]] && buf[q..q + 1] == [buf[q]];
  }

  // UNALIGNED_LOAD64 and UNALIGNED_LOAD32 on a little-endian machine
  function LoadAt(buf: seq<byte>, p: nat, w: nat): nat
    requires p + w <= |buf|
  {
    Load(buf[p..p + w])
  }

  lemma LoadsAgree(buf: seq<byte>, p: nat, q: nat, w: nat)
    requires p + w <= |buf| && q + w <= |buf|
    ensures LoadAt(buf, p, w) == LoadAt(buf, q, w) <==> Agree(buf, p, q, w)
  {
    LoadInjective(buf[p..p + w], buf[q..q + w]);
  }

  /** A word that differs ends the match inside it. */
  lemma MatchEnds(buf: seq<byte>, s1: nat, s2: nat, limit: nat, n: nat, w: nat)
    requires s2 + n + w <= limit <= |buf| && s1 + (limit - s2) <= |buf|
    requires Agree(buf, s1, s2, n) && LoadAt(buf, s2 + n, w) != LoadAt(buf, s1 + n, w)
    ensures var x := Xor(LoadAt(buf, s2 + n, w), LoadAt(buf, s1 + n, w));
      0 < x < Pow2(8 * w) && Tz(x) < 8 * w && Longest(buf, s1, s2, limit, n + Tz(x) / 8)
  {
    hide Tz, Xor, Load, Pow2;
    var a, b := buf[s2 + n..s2 + n + w], buf[s1 + n..s1 + n + w];
    FirstDifference(a, b);
    var k := Tz(Xor(Load(a), Load(b))) / 8;
    assert a[..k] == buf[s2 + n..s2 + n + k] && b[..k] == buf[s1 + n..s1 + n + k];
    AgreeMore(buf, s1, s2, n, k);
    BytesOfBits(w);
    XorBound(Load(a), Load(b), 8 * w);
    TzBound(Xor(Load(a), Load(b)), 8 * w);
  }

  lemma Pow2Long()
    ensures Pow2(64) == WORD * WORD && Pow2(32) == WORD
  {
    Pow2Word();
    Pow2Sum(32, 32);
  }

  lemma Found(buf: seq<byte>, s1: nat, s2: nat, limit: nat, n: nat)
    requires s2 + n <= limit <= |buf| && s1 + (limit - s2) <= |buf|
    requires Agree(buf, s1, s2, n) && (s2 + n < limit ==> buf[s1 + n] != buf[s2 + n])
    ensures Longest(buf, s1, s2, limit, n)
  {}

  /** The version for 64-bit little-endian machines. */
  method FindMatchLength64(buf: seq<byte>, s1: nat, start: nat, limit: nat) returns (matched: nat, short: bool)
    requires start <= limit <= |buf| && s1 + (limit - start) <= |buf|
    ensures Longest(buf, s1, start, limit, matched) && (short <==> matched < 8)
  {
    hide Xor, Tz, Longest, LoadAt, Agree;
    var s2 := start;
    matched := 0;
    NothingYet(buf, s1, start);
    if s2 + 8 <= limit {
      LoadsAgree(buf, s1, s2, 8);
      if LoadAt(buf, s1, 8) != LoadAt(buf, s2, 8) {
        matched := Differing(buf, s1, start, limit, 0);
        return matched, true;
      } else {
        matched := 8;
        s2 := s2 + 8;
      }
    }
    while s2 + 8 <= limit
      invariant s2 == start + matched <= limit && Agree(buf, s1, start, matched)
      invariant matched < 8 ==> limit - s2 < 8 && matched == 0
    {
      LoadsAgree(buf, s1 + matched, s2, 8);
      if LoadAt(buf, s2, 8) == LoadAt(buf, s1 + matched, 8) {
        AgreeMore(buf, s1, start, matched, 8);
        s2 := s2 + 8;
        matched := matched + 8;
      } else {
        matched := Differing(buf, s1, start, limit, matched);
        return matched, false;
      }
    }
    while s2 < limit
      invariant s2 == start + matched <= limit && Agree(buf, s1, start, matched)
    {
      if buf[s1 + matched] == buf[s2] {
        AgreeOne(buf, s1 + matched, s2);
        AgreeMore(buf, s1, start, matched, 1);
        s2 := s2 + 1;
        matched := matched + 1;
      } else {
        Found(buf, s1, start, limit, matched);
        return matched, matched < 8;
      }
    }
    Found(buf, s1, start, limit, matched);
    short := matched < 8;
  }

  lemma NothingYet(buf: seq<byte>, p: nat, q: nat)
    requires p <= |buf| && q <= |buf|
    ensures Agree(buf, p, q, 0)
  {}

  // the position of the first difference in two 8-byte words known to differ
  method Differing(buf: seq<byte>, s1: nat, s2: nat, limit: nat, n: nat) returns (matched: nat)
    requires s2 + n + 8 <= limit <= |buf| && s1 + (limit - s2) <= |buf|
    requires Agree(buf, s1, s2, n) && LoadAt(buf, s2 + n, 8) != LoadAt(buf, s1 + n, 8)
    ensures Longest(buf, s1, s2, limit, matched) && n <= matched < n + 8
  {
    hide Xor, Tz, Longest, LoadAt, Agree, Pow2;
    var x := Xor(LoadAt(buf, s2 + n, 8), LoadAt(buf, s1 + n, 8));
    MatchEnds(buf, s1, s2, limit, n, 8);
    Pow2Long();
    var matchingBits := FindLSBSetNonZero64(x);
    matched := n + matchingBits / 8;
  }

  /** The version for all other machines. */
  method FindMatchLength32(buf: seq<byte>, s1: nat, start: nat, limit: nat, littleEndian: bool)
    returns (matched: nat, short: bool)
    requires start <= limit <= |buf| && s1 + (limit - start) <= |buf|
    ensures Longest(buf, s1, start, limit, matched) && (short <==> matched < 8)
  {
    hide Xor, Tz, Longest, LoadAt, Agree, Pow2;
    var s2 := start;
    matched := 0;
    NothingYet(buf, s1, start);
    while s2 + 4 <= limit && LoadAt(buf, s2, 4) == LoadAt(buf, s1 + matched, 4)
      invariant s2 == start + matched <= limit && Agree(buf, s1, start, matched)
    {
      LoadsAgree(buf, s1 + matched, s2, 4);
      AgreeMore(buf, s1, start, matched, 4);
      s2 := s2 + 4;
      matched := matched + 4;
    }
    if littleEndian && s2 + 4 <= limit {
      var x := Xor(LoadAt(buf, s2, 4), LoadAt(buf, s1 + matched, 4));
      MatchEnds(buf, s1, start, limit, matched, 4);
      Pow2Long();
      var matchingBits := FindLSBSetNonZero(x);
      matched := matched + matchingBits / 8;
    } else {
      while s2 < limit && buf[s1 + matched] == buf[s2]
        invariant s2 == start + matched <= limit && Agree(buf, s1, start, matched)
      {
        AgreeOne(buf, s1 + matched, s2);
        AgreeMore(buf, s1, start, matched, 1);
        s2 := s2 + 1;
        matched := matched + 1;
      }
      Found(buf, s1, start, limit, matched);
    }
    short := matched < 8;
  }
}
