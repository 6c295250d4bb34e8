/**
 * Stage C of the prover: the permutation accumulator Z (`computeZ`) and its
 * rotation Z(uX) (`shiftZ`), both in Lagrange basis.
 */
module Permutation {
  import opened Field

  /**
   * What `computeZ` reads: the wires l, r, o and the permutation polynomials
   * LS1, LS2, LS3 in Lagrange basis, the two coset shifters of the verifying
   * key, the domain generator ω and the challenge γ.
   */
  datatype AccumulatorInputs = AccumulatorInputs(
    l: seq<Fe>, r: seq<Fe>, o: seq<Fe>,
    s1: seq<Fe>, s2: seq<Fe>, s3: seq<Fe>,
    shifter1: Fe, shifter2: Fe, omega: Fe, gamma: Fe)

  /** Every vector has at least m entries. */
  predicate Covers(a: AccumulatorInputs, m: nat)
  {
    |a.l| >= m && |a.r| >= m && |a.o| >= m && |a.s1| >= m && |a.s2| >= m && |a.s3| >= m
  }

  /** (l + x + γ)(r + y + γ)(o + z + γ), multiplied left to right as the prover does. */
  function ShiftedProduct(l: Fe, r: Fe, o: Fe, x: Fe, y: Fe, z: Fe, gamma: Fe): Fe
  {
    Mul(Mul(Add(Add(l, x), gamma), Add(Add(r, y), gamma)), Add(Add(o, z), gamma))
  }

  /** f_i: the wires at slot i against the identity permutation ω^i, u·ω^i, u²·ω^i. */
  function Numerator(a: AccumulatorInputs, i: nat): Fe
    requires Covers(a, i + 1)
  {
    var w := Pow(a.omega, i);
    ShiftedProduct(a.l[i], a.r[i], a.o[i], w, Mul(a.shifter1, w), Mul(a.shifter2, w), a.gamma)
  }

  /** g_i: the wires at slot i against the permutation σ (LS1, LS2, LS3). */
  function Denominator(a: AccumulatorInputs, i: nat): Fe
    requires Covers(a, i + 1)
  {
    ShiftedProduct(a.l[i], a.r[i], a.o[i], a.s1[i], a.s2[i], a.s3[i], a.gamma)
  }

  /** The accumulator by its defining recurrence: Z_0 = 1, Z_{k+1} = Z_k · f_k · g_k⁻¹. */
  function Accumulator(a: AccumulatorInputs, k: nat): Fe
    requires Covers(a, k)
  {
    if k == 0 then 1 else Mul(Mul(Accumulator(a, k - 1), Numerator(a, k - 1)), Inv(Denominator(a, k - 1)))
  }

  /** Z in Lagrange form: the accumulator at every slot of the size-n domain. */
  function AccumulatorVector(a: AccumulatorInputs, n: nat): (z: seq<Fe>)
    requires n >= 1 && Covers(a, n - 1)
    ensures |z| == n
  {
    seq(n, k requires 0 <= k < n => Accumulator(a, k))
  }

  /** Π_{j<k} f_j: what the first pass of `computeZ` leaves in z[k]. */
  function NumeratorProduct(a: AccumulatorInputs, k: nat): Fe
    requires Covers(a, k)
  {
    if k == 0 then 1 else Mul(NumeratorProduct(a, k - 1), Numerator(a, k - 1))
  }

  /** Π_{j<k} g_j⁻¹: the running `acc` of the second pass. */
  function InverseDenominatorProduct(a: AccumulatorInputs, k: nat): Fe
    requires Covers(a, k)
  {
    if k == 0 then 1 else Mul(InverseDenominatorProduct(a, k - 1), Inv(Denominator(a, k - 1)))
  }

  /** Deferring the divisions to one batch inversion does not change the accumulator. */
  lemma {:induction false} DeferredDivision(a: AccumulatorInputs, k: nat)
    requires Covers(a, k)
    ensures Mul(NumeratorProduct(a, k), InverseDenominatorProduct(a, k)) == Accumulator(a, k)
  {
    if k == 0 {
      MulOneLeft(1);
    } else {
      DeferredDivision(a, k - 1);
      Interchange(NumeratorProduct(a, k - 1), InverseDenominatorProduct(a, k - 1),
                  Numerator(a, k - 1), Inv(Denominator(a, k - 1)));
    }
  }

  /** (n·f)(d·v) == ((n·d)·f)·v */
  lemma Interchange(n: Fe, d: Fe, f: Fe, v: Fe)
    ensures Mul(Mul(n, f), Mul(d, v)) == Mul(Mul(Mul(n, d), f), v)
  {
    calc {
      Mul(Mul(n, f), Mul(d, v));
      Mul(FromInt(n * f), FromInt(d * v));
      { MulLift(n * f, d * v); }
      FromInt((n * f) * (d * v));
      { InterchangeIdentity(n, d, f, v); }
      FromInt((n * d) * f * v);
      { MulLift((n * d) * f, v); FromFe(v); }
      Mul(FromInt((n * d) * f), v);
      { MulLift(n * d, f); FromFe(f); }
      Mul(Mul(FromInt(n * d), f), v);
      Mul(Mul(Mul(n, d), f), v);
    }
  }

  lemma InterchangeIdentity(n: int, d: int, f: int, v: int)
    ensures (n * f) * (d * v) == (n * d) * f * v
  {
  }

  /**
   * `computeZ`: a first pass accumulates the numerators into z and stores
   * the denominators in gInv, one batch inversion inverts them all, and a
   * second pass multiplies the running product of inverses into z. The
   * result is the accumulator of the direct recurrence.
   */
  method ComputeZ(a: AccumulatorInputs, n: nat) returns (z: seq<Fe>)
    requires n >= 1
    requires Covers(a, n - 1)
    ensures |z| == n
    ensures z[0] == 1
    ensures forall i :: 0 <= i < n - 1 ==>
      z[i + 1] == Mul(Mul(z[i], Numerator(a, i)), Inv(Denominator(a, i)))
    ensures z == AccumulatorVector(a, n)
  {
    var numerators, denominators := NumeratorPass(a, n);
    var gInv := BatchInvert(denominators);
    z := DivisionPass(a, n, numerators, gInv);
    forall i | 0 <= i < n - 1
      ensures z[i + 1] == Mul(Mul(z[i], Numerator(a, i)), Inv(Denominator(a, i)))
    {
      AccumulatorStep(a, i);
    }
  }

  lemma AccumulatorStep(a: AccumulatorInputs, i: nat)
    requires Covers(a, i + 1)
    ensures Accumulator(a, i + 1) == Mul(Mul(Accumulator(a, i), Numerator(a, i)), Inv(Denominator(a, i)))
  {
  }

  /** The first loop of `computeZ`, before the batch inversion. */
  method NumeratorPass(a: AccumulatorInputs, n: nat) returns (z: seq<Fe>, g: seq<Fe>)
    requires n >= 1
    requires Covers(a, n - 1)
    ensures |z| == n && |g| == n
    ensures forall k :: 0 <= k < n ==> z[k] == NumeratorProduct(a, k)
    ensures forall k :: 1 <= k < n ==> g[k] == Denominator(a, k - 1)
  {
    z, g := [1], [1];
    var u0, u1, u2: Fe := 1, a.shifter1, a.shifter2;
    MulOneLeft(a.shifter1);
    MulOneLeft(a.shifter2);

    var i := 0;
    while i < n - 1
      invariant 0 <= i <= n - 1
      invariant |z| == i + 1 && |g| == i + 1
      invariant forall k :: 0 <= k <= i ==> z[k] == NumeratorProduct(a, k)
      invariant forall k :: 1 <= k <= i ==> g[k] == Denominator(a, k - 1)
      invariant u0 == Pow(a.omega, i)
      invariant u1 == Mul(a.shifter1, Pow(a.omega, i)) && u2 == Mul(a.shifter2, Pow(a.omega, i))
    {
      var f := ShiftedProduct(a.l[i], a.r[i], a.o[i], u0, u1, u2, a.gamma);
      NumeratorStep(a, i, f);
      NumeratorsExtend(a, z, i, Mul(z[i], f));
      DenominatorsExtend(a, g, i, ShiftedProduct(a.l[i], a.r[i], a.o[i], a.s1[i], a.s2[i], a.s3[i], a.gamma));
      g := g + [ShiftedProduct(a.l[i], a.r[i], a.o[i], a.s1[i], a.s2[i], a.s3[i], a.gamma)];
      z := z + [Mul(z[i], f)];
      ShiftedPowerStep(a.shifter1, a.omega, i);
      ShiftedPowerStep(a.shifter2, a.omega, i);
      u0, u1, u2 := Mul(u0, a.omega), Mul(u1, a.omega), Mul(u2, a.omega);
      i := i + 1;
    }
  }

  lemma NumeratorsExtend(a: AccumulatorInputs, z: seq<Fe>, i: nat, v: Fe)
    requires Covers(a, i + 1) && |z| == i + 1
    requires forall k :: 0 <= k <= i ==> z[k] == NumeratorProduct(a, k)
    requires v == NumeratorProduct(a, i + 1)
    ensures forall k :: 0 <= k <= i + 1 ==> (z + [v])[k] == NumeratorProduct(a, k)
  {
  }

  lemma DenominatorsExtend(a: AccumulatorInputs, g: seq<Fe>, i: nat, v: Fe)
    requires Covers(a, i + 1) && |g| == i + 1
    requires forall k :: 1 <= k <= i ==> g[k] == Denominator(a, k - 1)
    requires v == Denominator(a, i)
    ensures forall k :: 1 <= k <= i + 1 ==> (g + [v])[k] == Denominator(a, k - 1)
  {
  }

  lemma NumeratorStep(a: AccumulatorInputs, i: nat, f: Fe)
    requires Covers(a, i + 1)
    requires f == ShiftedProduct(a.l[i], a.r[i], a.o[i], Pow(a.omega, i),
      Mul(a.shifter1, Pow(a.omega, i)), Mul(a.shifter2, Pow(a.omega, i)), a.gamma)
    ensures NumeratorProduct(a, i + 1) == Mul(NumeratorProduct(a, i), f)
  {
  }

  /** The multiplier u·ω^i steps to u·ω^(i+1) by one multiplication with ω. */
  lemma ShiftedPowerStep(u: Fe, omega: Fe, i: nat)
    ensures Mul(Mul(u, Pow(omega, i)), omega) == Mul(u, Pow(omega, i + 1))
  {
    MulAssoc(u, Pow(omega, i), omega);
  }

  /** The second loop of `computeZ`: multiplies Π_{j<i} g_j⁻¹ into z[i]. */
  method DivisionPass(a: AccumulatorInputs, n: nat, numerators: seq<Fe>, gInv: seq<Fe>) returns (z: seq<Fe>)
    requires n >= 1
    requires Covers(a, n - 1)
    requires |numerators| == n && |gInv| == n
    requires forall k :: 0 <= k < n ==> numerators[k] == NumeratorProduct(a, k)
    requires forall k :: 1 <= k < n ==> gInv[k] == Inv(Denominator(a, k - 1))
    ensures |z| == n
    ensures forall k :: 0 <= k < n ==> z[k] == Accumulator(a, k)
  {
    z := numerators;
    var acc: Fe := 1;
    var i := 1;
    while i < n
      invariant 1 <= i <= n
      invariant |z| == n
      invariant acc == InverseDenominatorProduct(a, i - 1)
      invariant forall k :: 0 <= k < i ==> z[k] == Accumulator(a, k)
      invariant forall k :: i <= k < n ==> z[k] == numerators[k]
    {
      acc := Mul(acc, gInv[i]);
      DeferredDivision(a, i);
      z := z[i := Mul(z[i], acc)];
      i := i + 1;
    }
  }

  /**
   * Division-free form of one accumulator step: whenever g_i is nonzero,
   * Z_{i+1}·g_i == Z_i·f_i, which is what makes the ordering term vanish.
   */
  lemma AccumulatorRatio(a: AccumulatorInputs, i: nat)
    requires IsPrime(P)
    requires Covers(a, i + 1)
    requires Denominator(a, i) != 0
    ensures Mul(Accumulator(a, i + 1), Denominator(a, i)) == Mul(Accumulator(a, i), Numerator(a, i))
  {
    DivideOut(Mul(Accumulator(a, i), Numerator(a, i)), Denominator(a, i));
  }

  /** `shiftZ`: Z(uX) in Lagrange basis is Z rotated left by one slot. */
  function ShiftZ(z: seq<Fe>): (res: seq<Fe>)
    requires |z| >= 1
    ensures |res| == |z|
    ensures forall i :: 0 <= i < |z| ==> res[i] == z[(i + 1) % |z|]
    ensures res[|z| - 1] == z[0]
  {
    RotateLeftIndices(z);
    z[1..] + [z[0]]
  }

  lemma RotateLeftIndices(z: seq<Fe>)
    requires |z| >= 1
    ensures forall i :: 0 <= i < |z| ==> (z[1..] + [z[0]])[i] == z[(i + 1) % |z|]
  {
    var n, r := |z|, z[1..] + [z[0]];
    forall i | 0 <= i < n
      ensures r[i] == z[(i + 1) % n]
    {
      if i + 1 < n {
        DivModUnique(i + 1, 0, i + 1, n);
      } else {
        DivModUnique(i + 1, 1, 0, n);
      }
    }
  }

  /** k successive applications of `shiftZ`. */
  function ShiftZTimes(z: seq<Fe>, k: nat): (res: seq<Fe>)
    requires |z| >= 1
    ensures |res| == |z|
  {
    if k == 0 then z else ShiftZ(ShiftZTimes(z, k - 1))
  }

  lemma {:induction false} ShiftZTimesRotates(z: seq<Fe>, k: nat)
    requires |z| >= 1
    ensures forall i :: 0 <= i < |z| ==> ShiftZTimes(z, k)[i] == z[(i + k) % |z|]
  {
    var n := |z|;
    if k == 0 {
      forall i | 0 <= i < n
        ensures ShiftZTimes(z, k)[i] == z[(i + k) % n]
      {
        DivModUnique(i, 0, i, n);
      }
    } else {
      var prev := ShiftZTimes(z, k - 1);
      ShiftZTimesRotates(z, k - 1);
      assert ShiftZTimes(z, k) == ShiftZ(prev);
      forall i | 0 <= i < n
        ensures ShiftZTimes(z, k)[i] == z[(i + k) % n]
      {
        var j := (i + 1) % n;
        assert ShiftZ(prev)[i] == prev[j];
        assert prev[j] == z[(j + (k - 1)) % n];
        RotateIndex(i, k, n);
      }
    }
  }

  lemma RotateIndex(i: nat, k: nat, n: nat)
    requires n >= 1 && i < n && k >= 1
    ensures ((i + 1) % n + (k - 1)) % n == (i + k) % n
  {
    var j := (i + 1) % n;
    if i + 1 < n {
      assert j == i + 1;
    } else {
      assert j == 0;
      assert i + k == n + (k - 1);
      DivModUnique(i + k, (k - 1) / n + 1, (k - 1) % n, n);
    }
  }

  /** `shiftZ` is a cyclic rotation: |z| applications give z back. */
  lemma ShiftZCycle(z: seq<Fe>)
    requires |z| >= 1
    ensures ShiftZTimes(z, |z|) == z
  {
    var n := |z|;
    var r := ShiftZTimes(z, n);
    ShiftZTimesRotates(z, n);
    forall i | 0 <= i < n
      ensures r[i] == z[i]
    {
      RotateByLength(i, n);
    }
  }

  lemma RotateByLength(i: nat, n: nat)
    requires i < n
    ensures (i + n) % n == i
  {
    DivModUnique(i + n, 1, i, n);
  }
}
