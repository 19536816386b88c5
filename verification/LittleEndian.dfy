/** Little-endian words as the wire format and the word loads of the vendored snappy code see them. */
module LittleEndian {

  type byte = x: int | 0 <= x < 256

  function Pow256(w: nat): (p: nat)
    ensures p > 0
  {
    if w == 0 then 1 else 256 * Pow256(w - 1)
  }

  /** The number a little-endian machine reads from s. */
  function Load(s: seq<byte>): (n: nat)
    ensures n < Pow256(|s|)
  {
    if |s| == 0 then 0 else s[0] + 256 * Load(s[1..])
  }

  /** The w bytes a little-endian machine writes for n, high bytes dropped. */
  function Store(n: nat, w: nat): (s: seq<byte>)
    ensures |s| == w
  {
    if w == 0 then [] else [n % 256] + Store(n / 256, w - 1)
  }

  lemma {:induction false} LoadStore(n: nat, w: nat)
    ensures Load(Store(n, w)) == n % Pow256(w)
  {
    if w > 0 {
      var p := Pow256(w - 1);
      assert Store(n, w)[1..] == Store(n / 256, w - 1);
      LoadStore(n / 256, w - 1);
      SplitModulo(n, p);
    }
  }

  lemma SplitModulo(n: nat, p: nat)
    requires p > 0
    ensures n % (256 * p) == n % 256 + 256 * ((n / 256) % p)
  {
    var q, r := n / 256, n % 256;
    var k, m := q / p, q % p;
    assert n == 256 * (k * p + m) + r;
    assert n == k * (256 * p) + (256 * m + r) by {
      assert 256 * (k * p) == k * (256 * p);
    }
    assert 256 * m + r < 256 * p;
    ModuloUnique(n, 256 * p, k, 256 * m + r);
  }

  lemma ModuloUnique(n: nat, d: nat, k: nat, r: nat)
    requires r < d && n == k * d + r
    ensures n % d == r && n / d == k
  {
    var k', r' := n / d, n % d;
    if k' < k {
      ScaledOrder(k' + 1, k, d);
    } else if k' > k {
      ScaledOrder(k + 1, k', d);
    }
  }

  lemma ScaledOrder(a: int, b: int, d: nat)
    requires a <= b
    ensures a * d <= b * d
  {
    assert b * d == a * d + (b - a) * d;
  }

  lemma {:induction false} StoreLoad(s: seq<byte>)
    ensures Store(Load(s), |s|) == s
  {
    if |s| > 0 {
      StoreLoad(s[1..]);
      assert Load(s) % 256 == s[0] && Load(s) / 256 == Load(s[1..]);
      assert s == [s[0]] + s[1..];
    }
  }

  /** Different bytes, different words. */
  lemma LoadInjective(a: seq<byte>, b: seq<byte>)
    requires |a| == |b|
    ensures Load(a) == Load(b) <==> a == b
  {
    StoreLoad(a);
    StoreLoad(b);
  }

  /** The low-order bytes of a word are the word of the first bytes. */
  lemma {:induction false} LoadPrefix(s: seq<byte>, k: nat)
    requires k <= |s|
    ensures Load(s) % Pow256(k) == Load(s[..k])
  {
    if k > 0 {
      LoadPrefix(s[1..], k - 1);
      assert s[..k][1..] == s[1..][..k - 1];
      SplitModulo(Load(s), Pow256(k - 1));
      assert Load(s) % 256 == s[0] && Load(s) / 256 == Load(s[1..]);
    }
  }

  // ----- words of four bytes, in plain arithmetic

  lemma LoadedWord(s: seq<byte>)
    requires |s| == 4
    ensures Load(s) == s[0] as int + 256 * s[1] as int + 65536 * s[2] as int + 16777216 * s[3] as int
  {
    assert Load(s[3..]) == s[3] + 256 * Load(s[4..]);
    assert s[1..][1..] == s[2..] && s[2..][1..] == s[3..];
    assert Load(s[2..]) == s[2] + 256 * Load(s[3..]);
    assert Load(s[1..]) == s[1] + 256 * Load(s[2..]);
  }

  lemma LoadedShort(s: seq<byte>)
    requires |s| == 2
    ensures Load(s) == s[0] as int + 256 * s[1] as int
  {
    assert Load(s[1..]) == s[1] + 256 * Load(s[2..]);
    assert s[1..][1..] == s[2..];
  }

  lemma StoredWord(n: nat)
    ensures var s := Store(n, 4);
      s[0] as int + 256 * s[1] as int + 65536 * s[2] as int + 16777216 * s[3] as int == n % 0x1_0000_0000
  {
    hide Load, Store;
    LoadStore(n, 4);
    LoadedWord(Store(n, 4));
    FourBytes();
  }

  lemma FourBytes()
    ensures Pow256(2) == 0x1_0000 && Pow256(4) == 0x1_0000_0000
  {
    assert Pow256(1) == 256 * Pow256(0);
    assert Pow256(3) == 256 * Pow256(2);
  }
}
