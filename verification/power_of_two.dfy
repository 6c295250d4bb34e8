/**
 * `nextPowerOfTwo` of backend/plonk/assert.go: the size of the test
 * structured reference string.
 *
 * Go's `int` and `uint64` are 64 bits wide; the conversions between them and
 * the `<<=` shift are written out modulo 2^64 here.
 */
module PowerOfTwo {

  const TwoTo62: int := 0x4000_0000_0000_0000
  const TwoTo63: int := 0x8000_0000_0000_0000
  const TwoTo64: int := 0x1_0000_0000_0000_0000

  predicate IsPowerOfTwo(n: nat)
    decreases n
  {
    if n <= 1 then n == 1 else n % 2 == 0 && IsPowerOfTwo(n / 2)
  }

  function Pow2(k: nat): nat
  {
    if k == 0 then 1 else 2 * Pow2(k - 1)
  }

  lemma {:induction false} Pow2IsPowerOfTwo(k: nat)
    ensures IsPowerOfTwo(Pow2(k))
  {
    if k > 0 {
      Pow2IsPowerOfTwo(k - 1);
    }
  }

  lemma TwoTo62IsPowerOfTwo()
    ensures IsPowerOfTwo(TwoTo62)
  {
    assert Pow2(10) == 1024;
    assert Pow2(20) == 1024 * 1024;
    assert Pow2(30) == 1024 * 1024 * 1024;
    assert Pow2(40) == 1024 * 1024 * 1024 * 1024;
    assert Pow2(50) == 1024 * 1024 * 1024 * 1024 * 1024;
    assert Pow2(60) == 1024 * 1024 * 1024 * 1024 * 1024 * 1024;
    assert Pow2(62) == TwoTo62;
    Pow2IsPowerOfTwo(62);
  }

  /** Bitwise AND of two naturals: Go's `&` on uint64 operands. */
  function BitAnd(a: nat, b: nat): nat
    decreases a
  {
    if a == 0 || b == 0 then 0
    else 2 * BitAnd(a / 2, b / 2) + (if a % 2 == 1 && b % 2 == 1 then 1 else 0)
  }

  /** Go's `int(u)` for a uint64 value u: two's complement reinterpretation. */
  function ToInt64(u: nat): int
    requires u < TwoTo64
  {
    if u < TwoTo63 then u else u - TwoTo64
  }

  lemma {:induction false} BitAndSelf(m: nat)
    ensures BitAnd(m, m) == m
    decreases m
  {
    if m > 0 {
      BitAndSelf(m / 2);
    }
  }

  /** The `n & (n-1) == 0` test recognises exactly the powers of two among n >= 1. */
  lemma {:induction false} ClearLowestBit(n: nat)
    requires n >= 1
    ensures BitAnd(n, n - 1) == 0 <==> IsPowerOfTwo(n)
    decreases n
  {
    if n > 1 {
      if n % 2 == 0 {
        assert (n - 1) / 2 == n / 2 - 1;
        assert BitAnd(n, n - 1) == 2 * BitAnd(n / 2, n / 2 - 1);
        ClearLowestBit(n / 2);
      } else {
        assert BitAnd(n, n - 1) == 2 * BitAnd(n / 2, n / 2);
        BitAndSelf(n / 2);
      }
    }
  }

  /** Powers of two are at least a factor two apart. */
  lemma {:induction false} PowerOfTwoGap(p: nat, q: nat)
    requires IsPowerOfTwo(p) && IsPowerOfTwo(q)
    requires q < p
    ensures 2 * q <= p
    decreases q
  {
    if q > 1 {
      PowerOfTwoGap(p / 2, q / 2);
    }
  }

  /**
   * `nextPowerOfTwo(_n)`. Sizes are sums of slice lengths, so `_n` is a
   * non-negative Go int; a negative `_n` would make the doubling loop spin
   * forever once `p` overflows to zero, and is not modelled.
   */
  method NextPowerOfTwo(n0: int) returns (r: int)
    requires 0 <= n0 < TwoTo63
    ensures n0 == 0 ==> r == 0
    ensures IsPowerOfTwo(n0) ==> r == n0
    ensures 1 <= n0 <= TwoTo62 ==> n0 <= r < 2 * n0 && IsPowerOfTwo(r)
    ensures TwoTo62 < n0 && !IsPowerOfTwo(n0) ==> r == -TwoTo63
  {
    var n: nat := n0 % TwoTo64;
    var m: nat := (n - 1) % TwoTo64;
    SmallMod(n0, TwoTo64);
    if n >= 1 {
      SmallMod(n - 1, TwoTo64);
      ClearLowestBit(n);
    }
    if BitAnd(n, m) == 0 {
      return n0;
    }
    var p := Doubling(n);
    if TwoTo62 < n {
      PowerOfTwoAbove(p);
    }
    r := ToInt64(p);
  }

  /** The doubling loop of `nextPowerOfTwo`: `p <<= 1` on a uint64 until p >= n. */
  method Doubling(n: nat) returns (p: nat)
    requires 1 < n < TwoTo63
    ensures IsPowerOfTwo(p)
    ensures n <= p <= TwoTo63 && p < 2 * n
  {
    p := 1;
    while p < n
      invariant IsPowerOfTwo(p) && p <= TwoTo63 && p < 2 * n
      decreases n - p
    {
      DoubleStep(p, n);
      p := (p * 2) % TwoTo64;
    }
  }

  /** One `p <<= 1` below n does not wrap, and keeps p a power of two below 2n. */
  lemma DoubleStep(p: nat, n: nat)
    requires IsPowerOfTwo(p) && p < n < TwoTo63
    ensures var q := (p * 2) % TwoTo64; IsPowerOfTwo(q) && p < q <= TwoTo63 && q < 2 * n
  {
    if TwoTo62 < p {
      PowerOfTwoAbove(p);
    }
    DoublePowerOfTwo(p);
    SmallMod(p * 2, TwoTo64);
  }

  lemma SmallMod(x: int, m: int)
    requires 0 <= x < m
    ensures x % m == x
  {
  }

  /** A power of two above 2^62 is at least 2^63. */
  lemma PowerOfTwoAbove(p: nat)
    requires IsPowerOfTwo(p) && TwoTo62 < p
    ensures TwoTo63 <= p
  {
    TwoTo62IsPowerOfTwo();
    PowerOfTwoGap(p, TwoTo62);
  }

  lemma DoublePowerOfTwo(p: nat)
    requires IsPowerOfTwo(p)
    ensures IsPowerOfTwo(2 * p)
  {
    assert (2 * p) / 2 == p;
  }
}
