/** Bit scans of the vendored snappy library, in their portable versions. A uint32 or uint64 is a number below
  * 2^32 or 2^64; shifts that lose bits say so. */
module Bits {
  import opened LittleEndian

  function Pow2(k: nat): (p: nat)
    ensures p > 0
  {
    if k == 0 then 1 else 2 * Pow2(k - 1)
  }

  const WORD: nat := 0x1_0000_0000

  lemma Pow2Word()
    ensures Pow2(32) == WORD && Pow2(31) == 0x8000_0000
  {
    Pow2Sum(8, 8);
    Pow2Sum(16, 16);
    assert Pow2(4) == 16;
    Pow2Sum(4, 4);
    assert Pow2(32) == 2 * Pow2(31);
  }

  lemma {:induction false} Pow2Sum(a: nat, b: nat)
    ensures Pow2(a + b) == Pow2(a) * Pow2(b)
  {
    if a > 0 {
      Pow2Sum(a - 1, b);
      assert 2 * (Pow2(a - 1) * Pow2(b)) == Pow2(a) * Pow2(b);
    }
  }

  /** Trailing zeros: the position of the lowest set bit. */
  function Tz(n: nat): nat
    requires n > 0
  {
    if n % 2 == 1 then 0 else 1 + Tz(n / 2)
  }

  /** The lowest set bit is where the number stops being divisible. */
  lemma {:induction false} TzDivides(n: nat, k: nat)
    requires n > 0
    ensures n % Pow2(k) == 0 <==> k <= Tz(n)
  {
    if k > 0 {
      HalfModulo(n, k);
      if n % 2 == 0 {
        TzDivides(n / 2, k - 1);
      }
    }
  }

  lemma HalfModulo(n: nat, k: nat)
    requires k > 0
    ensures n % Pow2(k) == n % 2 + 2 * ((n / 2) % Pow2(k - 1))
  {
    var p := Pow2(k - 1);
    var h := n / 2;
    var q, r := h / p, h % p;
    assert n == 2 * (q * p + r) + n % 2;
    assert 2 * (q * p) == q * (2 * p);
    ModuloUnique(n, 2 * p, q, 2 * r + n % 2);
  }

  lemma {:induction false} TzBound(n: nat, k: nat)
    requires 0 < n < Pow2(k)
    ensures Tz(n) < k
  {
    if n % 2 == 0 {
      TzBound(n / 2, k - 1);
    }
  }

  /** A bit above the lowest one makes no difference. */
  lemma {:induction false} TzModulo(n: nat, k: nat)
    requires n % Pow2(k) > 0
    ensures n > 0 && Tz(n % Pow2(k)) == Tz(n)
  {
    if k > 0 {
      HalfModulo(n, k);
      if n % 2 == 0 {
        TzModulo(n / 2, k - 1);
      }
    }
  }

  lemma {:induction false} TzTimes(n: nat, k: nat)
    requires n > 0
    ensures n * Pow2(k) > 0 && Tz(n * Pow2(k)) == Tz(n) + k
  {
    if k > 0 {
      TzTimes(n, k - 1);
      assert n * Pow2(k) == 2 * (n * Pow2(k - 1));
    }
  }

  /** n << shift in 32 bits. */
  function ShiftLeft(n: nat, shift: nat): (x: nat)
    ensures x < WORD
  {
    (n * Pow2(shift)) % WORD
  }

  lemma ShiftLeftTz(n: nat, shift: nat)
    requires 0 < n < WORD
    ensures ShiftLeft(n, shift) != 0 <==> Tz(n) + shift < 32
    ensures ShiftLeft(n, shift) != 0 ==> Tz(ShiftLeft(n, shift)) == Tz(n) + shift
  {
    Pow2Word();
    TzTimes(n, shift);
    TzDivides(n * Pow2(shift), 32);
    if ShiftLeft(n, shift) != 0 {
      TzModulo(n * Pow2(shift), 32);
    }
  }

  lemma ShiftLeftZero(shift: nat)
    ensures ShiftLeft(0, shift) == 0
  {}

  method FindLSBSetNonZero(m: nat) returns (rc: int)
    requires m < WORD
    ensures m > 0 ==> rc == Tz(m)
    ensures m == 0 ==> rc == 31
  {
    hide Tz, ShiftLeft;
    Pow2Word();
    if m > 0 {
      TzBound(m, 32);
    }
    var n := m;
    rc := 31;
    var i, shift := 4, 16;
    while i >= 0
      invariant -1 <= i <= 4 && (i >= 0 ==> shift == Pow2(i)) && shift >= 0
      invariant n < WORD && (m == 0 ==> n == 0 && rc == 31)
      invariant m > 0 ==> n > 0 && Tz(n) == Tz(m) + 31 - rc && 32 - Pow2(i + 1) <= Tz(n) < 32
    {
      var x := ShiftLeft(n, shift);
      if m > 0 {
        ShiftLeftTz(n, shift);
      } else {
        ShiftLeftZero(shift);
      }
      if x != 0 {
        n := x;
        rc := rc - shift;
      }
      shift := shift / 2;
      i := i - 1;
    }
  }

  method FindLSBSetNonZero64(n: nat) returns (rc: int)
    requires 0 < n < WORD * WORD
    ensures rc == Tz(n)
  {
    hide Tz;
    Pow2Word();
    var bottomBits := n % WORD;
    if bottomBits == 0 {
      TopBits(n);
      rc := FindLSBSetNonZero(n / WORD);
      rc := 32 + rc;
    } else {
      TzModulo(n, 32);
      rc := FindLSBSetNonZero(bottomBits);
    }
  }

  lemma TopBits(n: nat)
    requires 0 < n < WORD * WORD && n % WORD == 0
    ensures 0 < n / WORD < WORD && Tz(n) == 32 + Tz(n / WORD)
  {
    Pow2Word();
    TzTimes(n / WORD, 32);
  }

  method Log2Floor(n: nat) returns (log: int)
    requires n < WORD
    ensures n == 0 ==> log == -1
    ensures n > 0 ==> 0 <= log < 32 && Pow2(log) <= n < Pow2(log + 1)
  {
    hide Shifted, ShiftRight;
    if n == 0 {
      return -1;
    }
    Pow2Word();
    ShiftedNone(n);
    log := 0;
    var value := n;
    var i := 4;
    while i >= 0
      invariant -1 <= i <= 4 && 0 <= log && log + Pow2(i + 1) <= 32
      invariant 0 < value < Pow2(Pow2(i + 1)) && Shifted(n, log, value)
    {
      var shift := Pow2(i);
      var x := ShiftRight(value, shift);
      ShiftAgain(n, log, value, shift, x);
      if x != 0 {
        value := x;
        log := log + shift;
      }
      i := i - 1;
    }
    assert value == 1;
    ShiftedToOne(n, log);
  }

  lemma ShiftedNone(n: nat)
    ensures Shifted(n, 0, n)
  {}

  lemma ShiftedToOne(n: nat, log: nat)
    requires Shifted(n, log, 1)
    ensures Pow2(log) <= n < Pow2(log + 1)
  {}

  /** value is n >> log. */
  ghost predicate Shifted(n: nat, log: nat, value: nat) {
    value * Pow2(log) <= n < (value + 1) * Pow2(log)
  }

  /** value >> shift. */
  function ShiftRight(value: nat, shift: nat): (x: nat)
    ensures Shifted(value, shift, x)
  {
    Division(value, Pow2(shift));
    value / Pow2(shift)
  }

  lemma Division(v: nat, q: nat)
    requires q > 0
    ensures 0 <= v / q && (v / q) * q <= v < (v / q + 1) * q
  {
    assert v == q * (v / q) + v % q;
  }

  lemma ShiftAgain(n: nat, log: nat, value: nat, shift: nat, x: nat)
    requires Shifted(n, log, value) && Shifted(value, shift, x) && value < Pow2(2 * shift)
    ensures x < Pow2(shift) && Shifted(n, log + shift, x) && (x == 0 ==> value < Pow2(shift))
  {
    hide Pow2;
    Pow2Sum(log, shift);
    Pow2Sum(shift, shift);
    assert Pow2(2 * shift) == Pow2(shift + shift);
    Compose(n, Pow2(log), value, Pow2(shift), x);
    Below(value, Pow2(shift), x);
  }

  lemma Compose(n: nat, p: nat, value: nat, q: nat, x: nat)
    requires value * p <= n < (value + 1) * p && x * q <= value < (x + 1) * q
    ensures x * (p * q) <= n < (x + 1) * (p * q)
  {
    ScaledOrder(x * q, value, p);
    ScaledOrder(value + 1, (x + 1) * q, p);
    Regroup(x, p, q);
    Regroup(x + 1, p, q);
  }

  lemma Below(value: nat, q: nat, x: nat)
    requires x * q <= value < q * q
    ensures x < q
  {
    if x >= q {
      ScaledOrder(q, x, q);
    }
  }

  lemma Regroup(x: int, p: int, q: int)
    ensures (x * q) * p == x * (p * q)
  {}
}
