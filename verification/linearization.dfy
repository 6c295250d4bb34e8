/**
 * The closed forms of the prover's last stage: folding h1, h2, h3 (and
 * their digests) with ζⁿ, the scalar α²·L1(ζ), and the linearized
 * polynomial of `computeLinearizedPolynomial`.
 */
module Linearization {
  import opened Wrappers
  import opened Field
  import opened Polynomials
  import opened Primitives
  import opened Permutation
  import opened Terms
  import opened Quotient
  import opened Keys

  // ---------------------------------------------------------------------
  // Folding h.
  // ---------------------------------------------------------------------

  /** `foldedH`: h3 scaled by ζⁿ, plus h2, scaled by ζⁿ again, plus h1. */
  function FoldH(h1: seq<Fe>, h2: seq<Fe>, h3: seq<Fe>, zetaN: Fe): seq<Fe>
  {
    PolyAdd(Scale(PolyAdd(Scale(h3, zetaN), h2), zetaN), h1)
  }

  /** Coefficient by coefficient, the fold is h1 + ζⁿ·h2 + ζ²ⁿ·h3. */
  lemma FoldHCoefficients(h1: seq<Fe>, h2: seq<Fe>, h3: seq<Fe>, zetaN: Fe)
    requires |h1| == |h2| == |h3|
    ensures |FoldH(h1, h2, h3, zetaN)| == |h1|
    ensures forall i :: 0 <= i < |h1| ==>
      FoldH(h1, h2, h3, zetaN)[i] == Add(Add(h1[i], Mul(zetaN, h2[i])), Mul(Mul(zetaN, zetaN), h3[i]))
  {
    forall i | 0 <= i < |h1|
      ensures FoldH(h1, h2, h3, zetaN)[i] == Add(Add(h1[i], Mul(zetaN, h2[i])), Mul(Mul(zetaN, zetaN), h3[i]))
    {
      HornerNumerator(h1[i], h2[i], h3[i], zetaN);
    }
  }

  /**
   * Folding with ζⁿ undoes the split of `computeH` at the point ζ: the
   * folded polynomial and h1 + Xⁿ·h2 + X²ⁿ·h3 agree at ζ.
   */
  lemma FoldHEval(h: seq<Fe>, n: nat, zeta: Fe)
    requires 3 * n <= |h|
    ensures var (h1, h2, h3) := Split(h, n);
      Eval(FoldH(h1, h2, h3, Pow(zeta, n)), zeta) == Eval(h[..3 * n], zeta)
  {
    var (h1, h2, h3) := Split(h, n);
    var zn := Pow(zeta, n);
    SplitCovers(h, n);
    var e1, e2, e3 := Eval(h1, zeta), Eval(h2, zeta), Eval(h3, zeta);
    calc {
      Eval(FoldH(h1, h2, h3, zn), zeta);
      { EvalAdd(Scale(PolyAdd(Scale(h3, zn), h2), zn), h1, zeta);
        EvalScale(PolyAdd(Scale(h3, zn), h2), zn, zeta);
        EvalAdd(Scale(h3, zn), h2, zeta);
        EvalScale(h3, zn, zeta); }
      Add(Mul(Add(Mul(e3, zn), e2), zn), e1);
      { HornerNumerator(e1, e2, e3, zn); }
      Add(Add(e1, Mul(zn, e2)), Mul(Mul(zn, zn), e3));
      { MulAssoc(zn, zn, e3);
        MulAddDistrib(zn, e2, Mul(zn, e3));
        AddAssoc(e1, Mul(zn, e2), Mul(zn, Mul(zn, e3))); }
      Add(e1, Mul(zn, Add(e2, Mul(zn, e3))));
      { EvalConcat(h2, h3, zeta); }
      Add(e1, Mul(zn, Eval(h2 + h3, zeta)));
      { EvalConcat(h1, h2 + h3, zeta); assert h1 + (h2 + h3) == h1 + h2 + h3; }
      Eval(h1 + h2 + h3, zeta);
    }
  }

  lemma AddAssoc(a: Fe, b: Fe, c: Fe)
    ensures Add(Add(a, b), c) == Add(a, Add(b, c))
  {
    calc {
      Add(Add(a, b), c);
      { AddLift(a, b); FromFe(c); AddLift(a + b, c); }
      FromInt(a + b + c);
      { FromFe(a); AddLift(b, c); AddLift(a, b + c); }
      Add(a, Add(b, c));
    }
  }

  /**
   * `foldedHDigest`: Comm(h3) scaled by ζⁿ, plus Comm(h2), scaled again,
   * plus Comm(h1), in the group of digests.
   */
  function FoldDigests<G>(b: Backend<G>, d1: G, d2: G, d3: G, zetaN: Fe): G
  {
    b.groupAdd(b.groupScale(b.groupAdd(b.groupScale(d3, zetaN), d2), zetaN), d1)
  }

  /** A commitment scheme that is additively homomorphic, as KZG is. */
  ghost predicate HomomorphicCommit<G>(b: Backend<G>)
  {
    (forall p, q :: b.commit(p).Success? && b.commit(q).Success? ==>
       b.commit(PolyAdd(p, q)) == Success(b.groupAdd(b.commit(p).value, b.commit(q).value))) &&
    (forall p, c :: b.commit(p).Success? ==>
       b.commit(Scale(p, c)) == Success(b.groupScale(b.commit(p).value, c)))
  }

  /** With a homomorphic commitment, the folded digest is the commitment of the folded h. */
  lemma FoldDigestsCommits<G>(b: Backend<G>, h1: seq<Fe>, h2: seq<Fe>, h3: seq<Fe>, zetaN: Fe)
    requires HomomorphicCommit(b)
    requires b.commit(h1).Success? && b.commit(h2).Success? && b.commit(h3).Success?
    ensures b.commit(FoldH(h1, h2, h3, zetaN))
            == Success(FoldDigests(b, b.commit(h1).value, b.commit(h2).value, b.commit(h3).value, zetaN))
  {
    var s3 := Scale(h3, zetaN);
    assert b.commit(s3) == Success(b.groupScale(b.commit(h3).value, zetaN));
    var a2 := PolyAdd(s3, h2);
    assert b.commit(a2) == Success(b.groupAdd(b.commit(s3).value, b.commit(h2).value));
    var s2 := Scale(a2, zetaN);
    assert b.commit(s2) == Success(b.groupScale(b.commit(a2).value, zetaN));
    assert b.commit(PolyAdd(s2, h1)) == Success(b.groupAdd(b.commit(s2).value, b.commit(h1).value));
  }

  // ---------------------------------------------------------------------
  // The L1(ζ) scalar.
  // ---------------------------------------------------------------------

  /**
   * α²·(ζⁿ − 1)·((ζ − 1)·n)⁻¹, in the prover's order. At ζ = 1 the
   * denominator is zero and `Inverse` returns zero, so does the scalar.
   */
  function LagrangeOneScalar(zeta: Fe, alpha: Fe, n: nat): (r: Fe)
    ensures zeta == 1 ==> r == 0
    ensures n % P == 0 ==> r == 0
  {
    var lagrange := Sub(Pow(zeta, n), 1);
    var d := Mul(Sub(zeta, 1), FromInt(n));
    var den := Inv(d);
    MulZero(Sub(zeta, 1));
    MulZero(FromInt(n));
    MulZero(lagrange);
    MulZero(alpha);
    Mul(Mul(Mul(lagrange, den), alpha), alpha)
  }

  /** 1 + ζ + … + ζ^(n−1). */
  function GeometricSum(zeta: Fe, n: nat): Fe
  {
    if n == 0 then 0 else Add(GeometricSum(zeta, n - 1), Pow(zeta, n - 1))
  }

  lemma {:induction false} GeometricSumClosed(zeta: Fe, n: nat)
    ensures Mul(Sub(zeta, 1), GeometricSum(zeta, n)) == Sub(Pow(zeta, n), 1)
  {
    if n > 0 {
      GeometricSumClosed(zeta, n - 1);
      var d, s, w := Sub(zeta, 1), GeometricSum(zeta, n - 1), Pow(zeta, n - 1);
      calc {
        Mul(d, Add(s, w));
        { MulAddDistrib(d, s, w); }
        Add(Sub(w, 1), Mul(d, w));
        { GeometricStep(zeta, w); }
        Sub(Mul(w, zeta), 1);
      }
    }
  }

  /** (w − 1) + (ζ − 1)·w == w·ζ − 1 */
  lemma GeometricStep(zeta: Fe, w: Fe)
    ensures Add(Sub(w, 1), Mul(Sub(zeta, 1), w)) == Sub(Mul(w, zeta), 1)
  {
    calc {
      Add(Sub(w, 1), Mul(Sub(zeta, 1), w));
      { FromFe(w); MulLift(zeta - 1, w); }
      Add(FromInt(w - 1), FromInt((zeta - 1) * w));
      { AddLift(w - 1, (zeta - 1) * w); }
      FromInt(w - 1 + (zeta - 1) * w);
      { assert w - 1 + (zeta - 1) * w == w * zeta - 1; }
      FromInt(w * zeta - 1);
      { SubLift(w * zeta, 1); FromFe(1); }
      Sub(Mul(w, zeta), 1);
    }
  }

  /**
   * Away from ζ = 1 and for n invertible in the field, the scalar is
   * α²·L1(ζ) with L1(ζ) = (1/n)·(1 + ζ + … + ζ^(n−1)), the first Lagrange
   * polynomial of the size-n domain.
   */
  lemma LagrangeOneScalarIsL1(zeta: Fe, alpha: Fe, n: nat)
    requires IsPrime(P)
    requires zeta != 1 && n % P != 0
    ensures LagrangeOneScalar(zeta, alpha, n)
            == Mul(Mul(Mul(GeometricSum(zeta, n), Inv(FromInt(n))), alpha), alpha)
  {
    var d, m, s := Sub(zeta, 1), FromInt(n), GeometricSum(zeta, n);
    assert d != 0 by {
      if zeta == 0 {
        DivModUnique(0 - 1, -1, P - 1, P);
      } else {
        FromFe(zeta - 1);
      }
    }
    GeometricSumClosed(zeta, n);
    InvMul(d, m);
    calc {
      Mul(Sub(Pow(zeta, n), 1), Inv(Mul(d, m)));
      Mul(Mul(d, s), Mul(Inv(d), Inv(m)));
      { MulSwapMiddle(d, s, Inv(d), Inv(m)); }
      Mul(Mul(d, Inv(d)), Mul(s, Inv(m)));
      { InvCancel(d); MulOneLeft(Mul(s, Inv(m))); }
      Mul(s, Inv(m));
    }
  }

  // ---------------------------------------------------------------------
  // The linearized polynomial.
  // ---------------------------------------------------------------------

  /**
   * `computeLinearizedPolynomial`, step by step: the selectors scaled by
   * the wire values at ζ, then α times the permutation part with S3(X) and
   * Z(X) left as polynomials, then α²·L1(ζ)·Z(X).
   */
  function Linearize<G>(pk: ProvingKey<G>, l: Fe, r: Fe, o: Fe, alpha: Fe, gamma: Fe, zeta: Fe, zu: Fe, z: seq<Fe>): seq<Fe>
  {
    var lin := Scale(pk.qm, Mul(r, l));
    var lin := PolyAdd(lin, Scale(pk.ql, l));
    var lin := PolyAdd(lin, Scale(pk.qr, r));
    var lin := PolyAdd(lin, Scale(pk.qo, o));
    var lin := PolyAdd(lin, pk.cqk);
    var s1 := Mul(Mul(Add(Add(Eval(pk.cs1, zeta), l), gamma), Add(Add(Eval(pk.cs2, zeta), r), gamma)), zu);
    var s2 := Neg(Mul(Mul(Add(Add(l, zeta), gamma), Add(Add(Mul(pk.vk.shifter1, zeta), r), gamma)),
                      Add(Add(Mul(pk.vk.shifter2, zeta), o), gamma)));
    var p1 := Scale(PolyAdd(Scale(pk.cs3, s1), Scale(z, s2)), alpha);
    var lin := PolyAdd(lin, p1);
    PolyAdd(lin, Scale(z, LagrangeOneScalar(zeta, alpha, pk.cardinality)))
  }

  /** Z(uζ)·(a + S1(ζ) + γ)·(b + S2(ζ) + γ): the factor of S3(X). */
  function SigmaFactor(l: Fe, r: Fe, s1: Fe, s2: Fe, gamma: Fe, zu: Fe): Fe
  {
    Mul(Mul(Add(Add(l, s1), gamma), Add(Add(r, s2), gamma)), zu)
  }

  /**
   * The linearized polynomial, coefficient by coefficient (and zero past
   * its end): the gate equation with the wires fixed at ζ and the selectors
   * left as polynomials, plus α·(SigmaFactor·S3(X) − f(ζ)·Z(X)) with f(ζ)
   * the identity-permutation product at ζ, plus α²·L1(ζ)·Z(X).
   */
  lemma LinearizedCoefficients<G>(pk: ProvingKey<G>, l: Fe, r: Fe, o: Fe, alpha: Fe, gamma: Fe, zeta: Fe, zu: Fe,
                                  z: seq<Fe>, i: nat)
    ensures
      var sigma := SigmaFactor(l, r, Eval(pk.cs1, zeta), Eval(pk.cs2, zeta), gamma, zu);
      var ident := ShiftedProduct(l, r, o, zeta, Mul(pk.vk.shifter1, zeta), Mul(pk.vk.shifter2, zeta), gamma);
      Coeff(Linearize(pk, l, r, o, alpha, gamma, zeta, zu, z), i)
      == Add(Add(GateEquation(Coeff(pk.ql, i), Coeff(pk.qr, i), Coeff(pk.qm, i), Coeff(pk.qo, i), Coeff(pk.cqk, i), l, r, o),
                 Mul(alpha, Sub(Mul(sigma, Coeff(pk.cs3, i)), Mul(ident, Coeff(z, i))))),
             Mul(LagrangeOneScalar(zeta, alpha, pk.cardinality), Coeff(z, i)))
  {
    var sigma := SigmaFactor(l, r, Eval(pk.cs1, zeta), Eval(pk.cs2, zeta), gamma, zu);
    var ident := ShiftedProduct(l, r, o, zeta, Mul(pk.vk.shifter1, zeta), Mul(pk.vk.shifter2, zeta), gamma);
    var s1 := Mul(Mul(Add(Add(Eval(pk.cs1, zeta), l), gamma), Add(Add(Eval(pk.cs2, zeta), r), gamma)), zu);
    var ident' := Mul(Mul(Add(Add(l, zeta), gamma), Add(Add(Mul(pk.vk.shifter1, zeta), r), gamma)),
                      Add(Add(Mul(pk.vk.shifter2, zeta), o), gamma));
    AddComm(Eval(pk.cs1, zeta), l);
    AddComm(Eval(pk.cs2, zeta), r);
    assert s1 == sigma;
    AddComm(Mul(pk.vk.shifter1, zeta), r);
    AddComm(Mul(pk.vk.shifter2, zeta), o);
    assert ident' == ident;
    var lag := LagrangeOneScalar(zeta, alpha, pk.cardinality);
    var ql, qr, qm, qo, qk := Coeff(pk.ql, i), Coeff(pk.qr, i), Coeff(pk.qm, i), Coeff(pk.qo, i), Coeff(pk.cqk, i);
    var cs3, zc := Coeff(pk.cs3, i), Coeff(z, i);
    var gate := Add(Add(Add(Add(Mul(qm, Mul(r, l)), Mul(ql, l)), Mul(qr, r)), Mul(qo, o)), qk);
    var perm := Mul(Add(Mul(cs3, s1), Mul(zc, Neg(ident))), alpha);
    assert Coeff(Linearize(pk, l, r, o, alpha, gamma, zeta, zu, z), i) == Add(Add(gate, perm), Mul(zc, lag)) by {
      LinearizeCoeff(pk, l, r, o, alpha, gamma, zeta, zu, z, i);
    }
    SelectorsAreGateEquation(ql, qr, qm, qo, qk, l, r, o);
    PermutationPart(cs3, sigma, zc, ident, alpha);
    MulComm(zc, lag);
  }

  /** Unfolding `Linearize` at one coefficient with `CoeffAdd` and `CoeffScale`. */
  lemma LinearizeCoeff<G>(pk: ProvingKey<G>, l: Fe, r: Fe, o: Fe, alpha: Fe, gamma: Fe, zeta: Fe, zu: Fe,
                          z: seq<Fe>, i: nat)
    ensures
      var s1 := Mul(Mul(Add(Add(Eval(pk.cs1, zeta), l), gamma), Add(Add(Eval(pk.cs2, zeta), r), gamma)), zu);
      var s2 := Neg(Mul(Mul(Add(Add(l, zeta), gamma), Add(Add(Mul(pk.vk.shifter1, zeta), r), gamma)),
                        Add(Add(Mul(pk.vk.shifter2, zeta), o), gamma)));
      Coeff(Linearize(pk, l, r, o, alpha, gamma, zeta, zu, z), i)
      == Add(Add(Add(Add(Add(Add(Mul(Coeff(pk.qm, i), Mul(r, l)), Mul(Coeff(pk.ql, i), l)), Mul(Coeff(pk.qr, i), r)),
                             Mul(Coeff(pk.qo, i), o)), Coeff(pk.cqk, i)),
                 Mul(Add(Mul(Coeff(pk.cs3, i), s1), Mul(Coeff(z, i), s2)), alpha)),
             Mul(Coeff(z, i), LagrangeOneScalar(zeta, alpha, pk.cardinality)))
  {
    var s1 := Mul(Mul(Add(Add(Eval(pk.cs1, zeta), l), gamma), Add(Add(Eval(pk.cs2, zeta), r), gamma)), zu);
    var s2 := Neg(Mul(Mul(Add(Add(l, zeta), gamma), Add(Add(Mul(pk.vk.shifter1, zeta), r), gamma)),
                      Add(Add(Mul(pk.vk.shifter2, zeta), o), gamma)));
    var a0 := Scale(pk.qm, Mul(r, l));
    var a1 := PolyAdd(a0, Scale(pk.ql, l));
    var a2 := PolyAdd(a1, Scale(pk.qr, r));
    var a3 := PolyAdd(a2, Scale(pk.qo, o));
    var a4 := PolyAdd(a3, pk.cqk);
    var p0 := PolyAdd(Scale(pk.cs3, s1), Scale(z, s2));
    var p1 := Scale(p0, alpha);
    var a5 := PolyAdd(a4, p1);
    var lz := Scale(z, LagrangeOneScalar(zeta, alpha, pk.cardinality));
    CoeffScale(pk.qm, Mul(r, l), i);
    CoeffScale(pk.ql, l, i);
    CoeffAdd(a0, Scale(pk.ql, l), i);
    CoeffScale(pk.qr, r, i);
    CoeffAdd(a1, Scale(pk.qr, r), i);
    CoeffScale(pk.qo, o, i);
    CoeffAdd(a2, Scale(pk.qo, o), i);
    CoeffAdd(a3, pk.cqk, i);
    CoeffScale(pk.cs3, s1, i);
    CoeffScale(z, s2, i);
    CoeffAdd(Scale(pk.cs3, s1), Scale(z, s2), i);
    CoeffScale(p0, alpha, i);
    CoeffAdd(a4, p1, i);
    CoeffScale(z, LagrangeOneScalar(zeta, alpha, pk.cardinality), i);
    CoeffAdd(a5, lz, i);
  }

  /** qm·(r·l) + ql·l + qr·r + qo·o + qk, in the prover's order, is the gate equation. */
  lemma SelectorsAreGateEquation(ql: Fe, qr: Fe, qm: Fe, qo: Fe, qk: Fe, l: Fe, r: Fe, o: Fe)
    ensures Add(Add(Add(Add(Mul(qm, Mul(r, l)), Mul(ql, l)), Mul(qr, r)), Mul(qo, o)), qk)
            == GateEquation(ql, qr, qm, qo, qk, l, r, o)
  {
    calc {
      Mul(qm, Mul(r, l));
      { MulComm(r, l); MulAssoc(qm, l, r); }
      Mul(Mul(qm, l), r);
    }
    var x, y, u, v := Mul(ql, l), Mul(qr, r), Mul(Mul(qm, l), r), Mul(qo, o);
    calc {
      Add(Add(Add(Add(u, x), y), v), qk);
      { AddComm(u, x); }
      Add(Add(Add(Add(x, u), y), v), qk);
      { AddAssoc(x, u, y); AddComm(u, y); AddAssoc(x, y, u); }
      Add(Add(Add(Add(x, y), u), v), qk);
    }
  }

  /** (cs3·σ + z·(−f))·α == α·(σ·cs3 − f·z) */
  lemma PermutationPart(cs3: Fe, sigma: Fe, zc: Fe, ident: Fe, alpha: Fe)
    ensures Mul(Add(Mul(cs3, sigma), Mul(zc, Neg(ident))), alpha) == Mul(alpha, Sub(Mul(sigma, cs3), Mul(ident, zc)))
  {
    calc {
      Add(Mul(cs3, sigma), Mul(zc, Neg(ident)));
      { MulLift(cs3, sigma); FromFe(ident); NegLift(ident); FromFe(zc); MulLift(zc, 0 - ident); }
      Add(FromInt(cs3 * sigma), FromInt(zc * (0 - ident)));
      { AddLift(cs3 * sigma, zc * (0 - ident)); }
      FromInt(cs3 * sigma + zc * (0 - ident));
      { PermutationIdentity(cs3, sigma, zc, ident); }
      FromInt(sigma * cs3 - ident * zc);
      { SubLift(sigma * cs3, ident * zc); }
      Sub(Mul(sigma, cs3), Mul(ident, zc));
    }
    MulComm(Sub(Mul(sigma, cs3), Mul(ident, zc)), alpha);
  }

  lemma PermutationIdentity(cs3: int, sigma: int, zc: int, ident: int)
    ensures cs3 * sigma + zc * (0 - ident) == sigma * cs3 - ident * zc
  {
  }
}
