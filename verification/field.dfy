/**
 * The scalar field fr of BLS12-381, as integers modulo P.
 *
 * The prover only ever adds, subtracts, multiplies, exponentiates and inverts
 * field elements; the Montgomery representation used by the library is not
 * modelled, only the values it represents.
 */
module Field {

  /**
   * The order of the BLS12-381 scalar field, given by its hexadecimal digits.
   * Proofs use only that P exceeds 1 and, where a lemma says so, that P is
   * prime: the verifier never unfolds the 64 digits into one 255-bit number.
   */
  const P: Modulus := ModulusFromDigits()

  type Modulus = m: int | m > 1 witness 2

  const ModulusDigits: string := "73eda753299d7d483339d80809a1d80553bda402fffe5bfeffffffff00000001"

  /** The value of a hexadecimal digit; other characters count as 0. */
  function HexDigit(c: char): nat
  {
    if '0' <= c <= '9' then c as nat - '0' as nat
    else if 'a' <= c <= 'f' then c as nat - 'a' as nat + 10
    else 0
  }

  /** The value of a string of hexadecimal digits, most significant first. */
  function HexValue(s: string): nat
  {
    if |s| == 0 then 0 else HexValue(s[..|s| - 1]) * 16 + HexDigit(s[|s| - 1])
  }

  /** A numeral is at least each of its digits. */
  lemma {:induction false} HexValueAtLeastDigit(s: string, i: nat)
    requires i < |s|
    ensures HexValue(s) >= HexDigit(s[i])
  {
    if i < |s| - 1 {
      HexValueAtLeastDigit(s[..|s| - 1], i);
    }
  }

  function ModulusFromDigits(): (m: int)
    ensures m > 1
  {
    assert ModulusDigits[55] == 'f';
    HexValueAtLeastDigit(ModulusDigits, 55);
    HexValue(ModulusDigits)
  }

  /** A field element: its canonical representative in [0, P). */
  type Fe = x: int | 0 <= x < P

  function FromInt(x: int): Fe { x % P }

  function Add(a: Fe, b: Fe): Fe { (a + b) % P }

  function Sub(a: Fe, b: Fe): Fe { (a - b) % P }

  function Neg(a: Fe): Fe { (0 - a as int) % P }

  function Mul(a: Fe, b: Fe): Fe { (a * b) % P }

  /** `x.Exp(x, k)`: x to the power k, by repeated multiplication. */
  function Pow(x: Fe, k: nat): Fe
  {
    if k == 0 then 1 else Mul(Pow(x, k - 1), x)
  }

  // ---------------------------------------------------------------------
  // Reduction modulo P commutes with +, - and *.
  // ---------------------------------------------------------------------

  lemma DivModUnique(a: int, k: int, r: int, m: int)
    requires m > 0 && 0 <= r < m && a == k * m + r
    ensures a % m == r
  {
    var q, s := a / m, a % m;
    assert a == q * m + s;
    assert (q - k) * m == r - s;
    if q > k {
      MulAtLeast(q - k, m);
    } else if q < k {
      MulAtLeast(k - q, m);
    }
  }

  lemma MulAtLeast(d: int, m: int)
    requires d >= 1 && m > 0
    ensures d * m >= m
  {
    assert d * m == (d - 1) * m + m;
  }

  lemma ModAdd(x: int, y: int)
    ensures (x % P + y) % P == (x + y) % P
    ensures (x + y % P) % P == (x + y) % P
  {
    var qx, qy := x / P, y / P;
    DivModUnique(x + y, qx + (x % P + y) / P, (x % P + y) % P, P);
    DivModUnique(x + y, qy + (x + y % P) / P, (x + y % P) % P, P);
  }

  lemma ModSub(x: int, y: int)
    ensures (x % P - y) % P == (x - y) % P
    ensures (x - y % P) % P == (x - y) % P
  {
    var qx, qy := x / P, y / P;
    DivModUnique(x - y, qx + (x % P - y) / P, (x % P - y) % P, P);
    DivModUnique(x - y, (x - y % P) / P - qy, (x - y % P) % P, P);
  }

  lemma ModMul(x: int, y: int)
    ensures (x % P * y) % P == (x * y) % P
    ensures (x * (y % P)) % P == (x * y) % P
  {
    var qx, rx := x / P, x % P;
    var qy, ry := y / P, y % P;
    assert x * y == (qx * y) * P + rx * y;
    DivModUnique(x * y, qx * y + (rx * y) / P, (rx * y) % P, P);
    assert x * y == (qy * x) * P + x * ry;
    DivModUnique(x * y, qy * x + (x * ry) / P, (x * ry) % P, P);
  }

  // ---------------------------------------------------------------------
  // Field operations agree with integer arithmetic reduced modulo P, so a
  // field identity follows from the integer identity of both sides.
  // ---------------------------------------------------------------------

  lemma AddLift(x: int, y: int)
    ensures Add(FromInt(x), FromInt(y)) == FromInt(x + y)
  {
    ModAdd(x, y % P);
    ModAdd(x, y);
  }

  lemma SubLift(x: int, y: int)
    ensures Sub(FromInt(x), FromInt(y)) == FromInt(x - y)
  {
    ModSub(x, y % P);
    ModSub(x, y);
  }

  lemma MulLift(x: int, y: int)
    ensures Mul(FromInt(x), FromInt(y)) == FromInt(x * y)
  {
    ModMul(x, y % P);
    ModMul(x, y);
  }

  lemma NegLift(x: int)
    ensures Neg(FromInt(x)) == FromInt(0 - x)
  {
    ModSub(0, x);
  }

  lemma FromFe(v: Fe)
    ensures FromInt(v) == v
  {
    DivModUnique(v, 0, v, P);
  }

  /** The three lifting facts for one pair of integers, for use in calculations. */
  lemma Lift(x: int, y: int)
    ensures Add(FromInt(x), FromInt(y)) == FromInt(x + y)
    ensures Sub(FromInt(x), FromInt(y)) == FromInt(x - y)
    ensures Mul(FromInt(x), FromInt(y)) == FromInt(x * y)
  {
    AddLift(x, y);
    SubLift(x, y);
    MulLift(x, y);
  }

  lemma MulAssoc(a: Fe, b: Fe, c: Fe)
    ensures Mul(Mul(a, b), c) == Mul(a, Mul(b, c))
  {
    calc {
      Mul(Mul(a, b), c);
      { MulLift(a * b, c); FromFe(c); }
      FromInt((a * b) * c);
      { AssocIdentity(a, b, c); }
      FromInt(a * (b * c));
      { MulLift(a, b * c); FromFe(a); }
      Mul(a, Mul(b, c));
    }
  }

  lemma AssocIdentity(a: int, b: int, c: int)
    ensures (a * b) * c == a * (b * c)
  {
  }

  lemma AddComm(a: Fe, b: Fe)
    ensures Add(a, b) == Add(b, a)
  {
  }

  lemma MulAddDistrib(a: Fe, b: Fe, c: Fe)
    ensures Mul(a, Add(b, c)) == Add(Mul(a, b), Mul(a, c))
  {
    calc {
      Mul(a, Add(b, c));
      { AddLift(b, c); FromFe(a); MulLift(a, b + c); }
      FromInt(a * (b + c));
      { assert a * (b + c) == a * b + a * c; }
      FromInt(a * b + a * c);
      { AddLift(a * b, a * c); }
      Add(Mul(a, b), Mul(a, c));
    }
  }

  /** (a + b) + (c + d) == (a + c) + (b + d) */
  lemma AddSwapMiddle(a: Fe, b: Fe, c: Fe, d: Fe)
    ensures Add(Add(a, b), Add(c, d)) == Add(Add(a, c), Add(b, d))
  {
    calc {
      Add(Add(a, b), Add(c, d));
      { AddLift(a + b, c + d); }
      FromInt((a + b) + (c + d));
      { assert (a + b) + (c + d) == (a + c) + (b + d); }
      FromInt((a + c) + (b + d));
      { AddLift(a + c, b + d); }
      Add(Add(a, c), Add(b, d));
    }
  }

  /** (a·b)·(c·d) == (a·c)·(b·d) */
  lemma MulSwapMiddle(a: Fe, b: Fe, c: Fe, d: Fe)
    ensures Mul(Mul(a, b), Mul(c, d)) == Mul(Mul(a, c), Mul(b, d))
  {
    calc {
      Mul(Mul(a, b), Mul(c, d));
      { MulLift(a * b, c * d); }
      FromInt((a * b) * (c * d));
      { SwapMiddleIdentity(a, b, c, d); }
      FromInt((a * c) * (b * d));
      { MulLift(a * c, b * d); }
      Mul(Mul(a, c), Mul(b, d));
    }
  }

  lemma SwapMiddleIdentity(a: int, b: int, c: int, d: int)
    ensures (a * b) * (c * d) == (a * c) * (b * d)
  {
  }

  lemma MulComm(a: Fe, b: Fe)
    ensures Mul(a, b) == Mul(b, a)
  {
    assert a * b == b * a;
  }

  lemma AddZero(a: Fe)
    ensures Add(a, 0) == a && Add(0, a) == a
  {
    FromFe(a);
  }

  /** a − b is zero exactly when a and b are equal. */
  lemma SubZero(a: Fe, b: Fe)
    ensures Sub(a, b) == 0 <==> a == b
  {
    if a >= b {
      DivModUnique(a - b, 0, a - b, P);
    } else {
      DivModUnique(a - b, -1, a - b + P, P);
    }
  }

  lemma MulOneLeft(a: Fe)
    ensures Mul(1, a) == a && Mul(a, 1) == a
  {
    FromFe(a);
  }

  // ---------------------------------------------------------------------
  // Powers.
  // ---------------------------------------------------------------------

  lemma {:induction false} PowAdd(x: Fe, a: nat, b: nat)
    ensures Pow(x, a + b) == Mul(Pow(x, a), Pow(x, b))
    decreases b
  {
    if b == 0 {
      MulOneLeft(Pow(x, a));
    } else {
      calc {
        Pow(x, a + b);
        Mul(Pow(x, a + b - 1), x);
        { PowAdd(x, a, b - 1); }
        Mul(Mul(Pow(x, a), Pow(x, b - 1)), x);
        { MulAssoc(Pow(x, a), Pow(x, b - 1), x); }
        Mul(Pow(x, a), Pow(x, b));
      }
    }
  }

  /** (x·y)^k == x^k·y^k */
  lemma {:induction false} PowMul(x: Fe, y: Fe, k: nat)
    ensures Pow(Mul(x, y), k) == Mul(Pow(x, k), Pow(y, k))
  {
    if k == 0 {
      MulOneLeft(1);
    } else {
      calc {
        Pow(Mul(x, y), k);
        Mul(Pow(Mul(x, y), k - 1), Mul(x, y));
        { PowMul(x, y, k - 1); }
        Mul(Mul(Pow(x, k - 1), Pow(y, k - 1)), Mul(x, y));
        { MulSwapMiddle(Pow(x, k - 1), Pow(y, k - 1), x, y); }
        Mul(Pow(x, k), Pow(y, k));
      }
    }
  }

  /** (x^a)^b == x^(a·b) */
  lemma {:induction false} PowPow(x: Fe, a: nat, b: nat)
    ensures Pow(Pow(x, a), b) == Pow(x, a * b)
  {
    if b == 0 {
      assert a * b == 0;
    } else {
      calc {
        Pow(Pow(x, a), b);
        Mul(Pow(Pow(x, a), b - 1), Pow(x, a));
        { PowPow(x, a, b - 1); }
        Mul(Pow(x, a * (b - 1)), Pow(x, a));
        { PowAdd(x, a * (b - 1), a); }
        Pow(x, a * (b - 1) + a);
        { StepProduct(a, b); }
        Pow(x, a * b);
      }
    }
  }

  lemma StepProduct(a: nat, b: nat)
    requires b > 0
    ensures a * (b - 1) + a == a * b
  {
  }

  /** 1^k == 1 */
  lemma {:induction false} PowOne(k: nat)
    ensures Pow(1, k) == 1
  {
    if k > 0 {
      PowOne(k - 1);
      MulOneLeft(1);
    }
  }

  // ---------------------------------------------------------------------
  // Inversion, by the extended Euclidean algorithm.
  // ---------------------------------------------------------------------

  function Gcd(a: nat, b: nat): nat
    decreases b
  {
    if b == 0 then a else Gcd(b, a % b)
  }

  /** Bezout coefficients: `(g, s, t)` with `a*s + b*t == g == Gcd(a, b)`. */
  function ExtGcd(a: nat, b: nat): (r: (nat, int, int))
    decreases b
    ensures r.0 == Gcd(a, b)
    ensures a * r.1 + b * r.2 == r.0
  {
    if b == 0 then (a, 1, 0)
    else
      var (g, s, t) := ExtGcd(b, a % b);
      assert a == (a / b) * b + a % b;
      assert a * t + b * (s - (a / b) * t) == b * s + (a % b) * t;
      (g, t, s - (a / b) * t)
  }

  /** `Inverse`: the multiplicative inverse of a unit; zero (and any non-unit) goes to zero. */
  function Inv(x: Fe): (r: Fe)
    ensures Gcd(x, P) == 1 ==> Mul(x, r) == 1
    ensures x == 0 ==> r == 0
  {
    var (g, s, t) := ExtGcd(x, P);
    if x == 0 then
      GcdZero(P);
      0
    else if g == 1 then
      assert x * s == (0 - t) * P + 1;
      DivModUnique(x * s, 0 - t, 1, P);
      ModMul(x, s);
      FromInt(s)
    else
      0
  }

  lemma GcdZero(m: nat)
    requires m > 0
    ensures Gcd(0, m) == m
  {
    DivModUnique(0, 0, 0, m);
  }

  /** `fr.BatchInvert`: every slot inverted, slots holding zero stay zero. */
  function BatchInvert(a: seq<Fe>): (r: seq<Fe>)
    ensures |r| == |a|
    ensures forall i :: 0 <= i < |a| ==> r[i] == Inv(a[i])
  {
    if |a| == 0 then [] else [Inv(a[0])] + BatchInvert(a[1..])
  }

  // ---------------------------------------------------------------------
  // Primality of P is a known fact about BLS12-381 that is not proved
  // here: lemmas that need it take it as a hypothesis.
  // ---------------------------------------------------------------------

  predicate Divides(d: int, n: int)
    requires d > 0
  {
    n % d == 0
  }

  ghost predicate IsPrime(n: int)
  {
    n > 1 && forall d :: 1 < d < n ==> !Divides(d, n)
  }

  lemma {:induction false} GcdDivides(a: nat, b: nat)
    requires a > 0 || b > 0
    ensures Gcd(a, b) > 0
    ensures Divides(Gcd(a, b), a) && Divides(Gcd(a, b), b)
    decreases b
  {
    if b > 0 {
      var g := Gcd(b, a % b);
      assert Gcd(a, b) == g;
      GcdDivides(b, a % b);
      DividesSum(a / b, b, a % b, g);
      assert (a / b) * b + a % b == a;
    }
  }

  /** If g divides b and r, it divides q*b + r. */
  lemma DividesSum(q: int, b: int, r: int, g: int)
    requires g > 0 && Divides(g, b) && Divides(g, r)
    ensures Divides(g, q * b + r)
  {
    var kb, kr := b / g, r / g;
    assert b == kb * g;
    assert r == kr * g;
    assert q * b + r == (q * kb + kr) * g;
    DivModUnique(q * b + r, q * kb + kr, 0, g);
  }

  lemma PrimeUnit(x: Fe)
    requires IsPrime(P)
    requires x != 0
    ensures Gcd(x, P) == 1
  {
    var g := Gcd(x, P);
    GcdDivides(x, P);
    assert x == (x / g) * g;
    MulAtLeast(x / g, g);
  }

  /** Over a prime modulus every nonzero element is inverted by `Inv`. */
  lemma InvCancel(x: Fe)
    requires IsPrime(P)
    requires x != 0
    ensures Mul(x, Inv(x)) == 1
  {
    PrimeUnit(x);
  }

  /** Dividing by a nonzero g and multiplying back by g is the identity. */
  lemma DivideOut(x: Fe, g: Fe)
    requires IsPrime(P)
    requires g != 0
    ensures Mul(Mul(x, Inv(g)), g) == x
  {
    MulAssoc(x, Inv(g), g);
    MulComm(Inv(g), g);
    InvCancel(g);
    MulOneLeft(x);
  }

  /** An element with a right inverse y has y as its `Inv`. */
  lemma InvUnique(x: Fe, y: Fe)
    requires IsPrime(P)
    requires x != 0 && Mul(x, y) == 1
    ensures y == Inv(x)
  {
    calc {
      y;
      { MulOneLeft(y); }
      Mul(1, y);
      { InvCancel(x); MulComm(x, Inv(x)); }
      Mul(Mul(Inv(x), x), y);
      { MulAssoc(Inv(x), x, y); }
      Mul(Inv(x), Mul(x, y));
      { MulOneLeft(Inv(x)); }
      Inv(x);
    }
  }

  /** Over a prime modulus the product of nonzero elements is nonzero. */
  lemma MulNonzero(a: Fe, b: Fe)
    requires IsPrime(P)
    requires a != 0 && b != 0
    ensures Mul(a, b) != 0
  {
    var ib := Inv(b);
    DivideOut(a, b);
    MulAssoc(a, ib, b);
    MulComm(ib, b);
    MulAssoc(a, b, ib);
    assert a == Mul(Mul(a, b), ib);
    MulZero(ib);
  }

  lemma MulZero(a: Fe)
    ensures Mul(0, a) == 0 && Mul(a, 0) == 0
  {
    FromFe(0);
  }

  /** The inverse of a product is the product of the inverses. */
  lemma InvMul(a: Fe, b: Fe)
    requires IsPrime(P)
    requires a != 0 && b != 0
    ensures Inv(Mul(a, b)) == Mul(Inv(a), Inv(b))
  {
    var ia, ib, ab := Inv(a), Inv(b), Mul(a, b);
    MulNonzero(a, b);
    MulSwapMiddle(a, b, ia, ib);
    InvCancel(a);
    InvCancel(b);
    MulOneLeft(1);
    assert Mul(ab, Mul(ia, ib)) == Mul(Mul(a, ia), Mul(b, ib)) == 1;
    InvUnique(ab, Mul(ia, ib));
  }
}
