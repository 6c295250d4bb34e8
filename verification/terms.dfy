/**
 * The three pointwise terms of the quotient numerator, evaluated slot by
 * slot over the 4n interleaved coset points (`evalConstraints`,
 * `evalConstraintOrdering`, `evalStartsAtOne`).
 */
module Terms {
  import opened Field
  import opened Polynomials
  import opened Primitives
  import opened Cosets
  import opened Permutation

  /** The value a polynomial takes at slot k of the interleaved coset vector. */
  function CosetValue<G>(b: Backend<G>, poly: seq<Fe>, n: nat, k: nat): Fe
    requires k < 4 * n
  {
    CosetValues(b, poly, n, 2 * (k % 4) + 1)[k / 4]
  }

  // ---------------------------------------------------------------------
  // Gate constraints.
  // ---------------------------------------------------------------------

  /** The gate term as `evalConstraints` computes it: qk + (ql + qm·r)·l + qr·r + qo·o. */
  function GateTerm(ql: Fe, qr: Fe, qm: Fe, qo: Fe, qk: Fe, l: Fe, r: Fe, o: Fe): Fe
  {
    Add(Add(Add(qk, Mul(Add(ql, Mul(qm, r)), l)), Mul(qr, r)), Mul(qo, o))
  }

  /** The gate equation of a sparse R1CS constraint: ql·l + qr·r + qm·l·r + qo·o + qk. */
  function GateEquation(ql: Fe, qr: Fe, qm: Fe, qo: Fe, qk: Fe, l: Fe, r: Fe, o: Fe): Fe
  {
    Add(Add(Add(Add(Mul(ql, l), Mul(qr, r)), Mul(Mul(qm, l), r)), Mul(qo, o)), qk)
  }

  /** The factored evaluation order of the prover computes the gate equation. */
  lemma GateTermIsGateEquation(ql: Fe, qr: Fe, qm: Fe, qo: Fe, qk: Fe, l: Fe, r: Fe, o: Fe)
    ensures GateTerm(ql, qr, qm, qo, qk, l, r, o) == GateEquation(ql, qr, qm, qo, qk, l, r, o)
  {
    var t := Mul(Add(ql, Mul(qm, r)), l);
    calc {
      t;
      { MulLift(qm, r); FromFe(ql); AddLift(ql, qm * r); }
      Mul(FromInt(ql + qm * r), l);
      { FromFe(l); MulLift(ql + qm * r, l); }
      FromInt((ql + qm * r) * l);
      { GateIdentity(ql, qm, r, l); }
      FromInt(ql * l + qm * l * r);
      { AddLift(ql * l, qm * l * r); }
      Add(FromInt(ql * l), FromInt(qm * l * r));
      { MulLift(qm * l, r); FromFe(r); MulLift(qm, l); FromFe(l); FromFe(qm); }
      Add(Mul(ql, l), Mul(Mul(qm, l), r));
    }
    AddRearrange(qk, Mul(ql, l), Mul(Mul(qm, l), r), Mul(qr, r), Mul(qo, o));
  }

  lemma GateIdentity(ql: int, qm: int, r: int, l: int)
    ensures (ql + qm * r) * l == ql * l + qm * l * r
  {
  }

  /** ((k + (a + c)) + b) + d == (((a + b) + c) + d) + k */
  lemma AddRearrange(k: Fe, a: Fe, c: Fe, b: Fe, d: Fe)
    ensures Add(Add(Add(k, Add(a, c)), b), d) == Add(Add(Add(Add(a, b), c), d), k)
  {
    calc {
      Add(Add(Add(k, Add(a, c)), b), d);
      { AddLift(a, c); FromFe(k); AddLift(k, a + c); }
      Add(Add(FromInt(k + (a + c)), b), d);
      { FromFe(b); AddLift(k + (a + c), b); }
      Add(FromInt(k + (a + c) + b), d);
      { FromFe(d); AddLift(k + (a + c) + b, d); }
      FromInt(k + (a + c) + b + d);
      { assert k + (a + c) + b + d == a + b + c + d + k; }
      FromInt(a + b + c + d + k);
      { FromFe(k); AddLift(a + b + c + d, k); }
      Add(FromInt(a + b + c + d), k);
      { FromFe(d); AddLift(a + b + c, d); }
      Add(Add(FromInt(a + b + c), d), k);
      { FromFe(c); AddLift(a + b, c); }
      Add(Add(Add(FromInt(a + b), c), d), k);
      { AddLift(a, b); }
      Add(Add(Add(Add(a, b), c), d), k);
    }
  }

  /** `p[i] *= q[i]` over the whole of p: the goroutine loops of `evalConstraints`. */
  method MulPointwise(p: seq<Fe>, q: seq<Fe>) returns (r: seq<Fe>)
    requires |q| >= |p|
    ensures |r| == |p|
    ensures forall i :: 0 <= i < |p| ==> r[i] == Mul(p[i], q[i])
  {
    r := p;
    var i := 0;
    while i < |p|
      invariant 0 <= i <= |p|
      invariant |r| == |p|
      invariant forall k :: 0 <= k < i ==> r[k] == Mul(p[k], q[k])
      invariant forall k :: i <= k < |p| ==> r[k] == p[k]
    {
      r := r[i := Mul(r[i], q[i])];
      i := i + 1;
    }
  }

  /**
   * `evalConstraints`: the gate term at every coset point, from the coset
   * evaluations of the selectors and of the completed qk.
   */
  method EvalConstraints<G>(b: Backend<G>, ql: seq<Fe>, qr: seq<Fe>, qm: seq<Fe>, qo: seq<Fe>, qk: seq<Fe>,
                            evalL: seq<Fe>, evalR: seq<Fe>, evalO: seq<Fe>, n: nat)
    returns (res: seq<Fe>)
    requires |evalL| == 4 * n && |evalR| == 4 * n && |evalO| == 4 * n
    ensures |res| == 4 * n
    ensures forall k :: 0 <= k < 4 * n ==>
      res[k] == GateTerm(CosetValue(b, ql, n, k), CosetValue(b, qr, n, k), CosetValue(b, qm, n, k),
                         CosetValue(b, qo, n, k), CosetValue(b, qk, n, k), evalL[k], evalR[k], evalO[k])
    ensures res == ConstraintsOnCosets(b, ql, qr, qm, qo, qk, evalL, evalR, evalO, n)
  {
    var evalQr := EvaluateCosets(b, qr, n);
    evalQr := MulPointwise(evalQr, evalR);
    var evalQo := EvaluateCosets(b, qo, n);
    evalQo := MulPointwise(evalQo, evalO);
    var evalQl := EvaluateCosets(b, ql, n);
    var evalQm := EvaluateCosets(b, qm, n);
    evalQl := LinearPart(evalQl, evalQm, evalL, evalR);
    var evalQk := EvaluateCosets(b, qk, n);
    res := SumTerms(evalQk, evalQl, evalQr, evalQo);
  }

  /** The gate term at every coset point, from the selectors and the wire values there. */
  function ConstraintsOnCosets<G>(b: Backend<G>, ql: seq<Fe>, qr: seq<Fe>, qm: seq<Fe>, qo: seq<Fe>, qk: seq<Fe>,
                                  evalL: seq<Fe>, evalR: seq<Fe>, evalO: seq<Fe>, n: nat): (v: seq<Fe>)
    requires |evalL| == 4 * n && |evalR| == 4 * n && |evalO| == 4 * n
    ensures |v| == 4 * n
  {
    seq(4 * n, k requires 0 <= k < 4 * n =>
      GateTerm(CosetValue(b, ql, n, k), CosetValue(b, qr, n, k), CosetValue(b, qm, n, k),
               CosetValue(b, qo, n, k), CosetValue(b, qk, n, k), evalL[k], evalR[k], evalO[k]))
  }

  /** The loop leaving (ql + qm·r)·l in evalQl. */
  method LinearPart(ql: seq<Fe>, qm: seq<Fe>, l: seq<Fe>, r: seq<Fe>) returns (res: seq<Fe>)
    requires |qm| == |ql| && |l| == |ql| && |r| == |ql|
    ensures |res| == |ql|
    ensures forall i :: 0 <= i < |ql| ==> res[i] == Mul(Add(ql[i], Mul(qm[i], r[i])), l[i])
  {
    res := ql;
    var i := 0;
    while i < |ql|
      invariant 0 <= i <= |ql|
      invariant |res| == |ql|
      invariant forall k :: 0 <= k < i ==> res[k] == Mul(Add(ql[k], Mul(qm[k], r[k])), l[k])
      invariant forall k :: i <= k < |ql| ==> res[k] == ql[k]
    {
      var buf := Mul(qm[i], r[i]);
      res := res[i := Mul(Add(res[i], buf), l[i])];
      i := i + 1;
    }
  }

  /** The final loop of `evalConstraints`: qk + ql-part + qr-part + qo-part, left to right. */
  method SumTerms(qk: seq<Fe>, ql: seq<Fe>, qr: seq<Fe>, qo: seq<Fe>) returns (res: seq<Fe>)
    requires |ql| == |qk| && |qr| == |qk| && |qo| == |qk|
    ensures |res| == |qk|
    ensures forall i :: 0 <= i < |qk| ==> res[i] == Add(Add(Add(qk[i], ql[i]), qr[i]), qo[i])
  {
    res := qk;
    var i := 0;
    while i < |qk|
      invariant 0 <= i <= |qk|
      invariant |res| == |qk|
      invariant forall k :: 0 <= k < i ==> res[k] == Add(Add(Add(qk[k], ql[k]), qr[k]), qo[k])
      invariant forall k :: i <= k < |qk| ==> res[k] == qk[k]
    {
      res := res[i := Add(Add(Add(res[i], ql[i]), qr[i]), qo[i])];
      i := i + 1;
    }
  }

  // ---------------------------------------------------------------------
  // Permutation ordering.
  // ---------------------------------------------------------------------

  /** Z(uX)·Π(w + σ + γ) − Z(X)·Π(w + id + γ) at one point. */
  function OrderingTerm(z: Fe, zu: Fe, l: Fe, r: Fe, o: Fe, id: Fe, uid: Fe, uuid: Fe,
                        s1: Fe, s2: Fe, s3: Fe, gamma: Fe): Fe
  {
    var f := Mul(ShiftedProduct(l, r, o, id, uid, uuid, gamma), z);
    var g := Mul(ShiftedProduct(l, r, o, s1, s2, s3, gamma), zu);
    Sub(g, f)
  }

  /**
   * On the domain, with Z the accumulator of `computeZ` and Z(uX) its
   * rotation by `shiftZ`, the ordering term vanishes at every point whose
   * denominator g_i is nonzero. At the last point Z(uX) wraps around to
   * Z(1) = 1, so there it vanishes when the grand product Π f_j / g_j is 1,
   * i.e. when the wires respect the permutation.
   */
  lemma OrderingTermVanishes(a: AccumulatorInputs, z: seq<Fe>, n: nat, i: nat)
    requires IsPrime(P)
    requires n >= 1 && Covers(a, n - 1) && |z| == n
    requires forall k :: 0 <= k < n - 1 ==> z[k + 1] == Mul(Mul(z[k], Numerator(a, k)), Inv(Denominator(a, k)))
    requires i < n && Covers(a, i + 1) && Denominator(a, i) != 0
    requires i == n - 1 ==> z[0] == 1 && Accumulator(a, n) == 1
    ensures
      var w := Pow(a.omega, i);
      OrderingTerm(z[i], ShiftZ(z)[i], a.l[i], a.r[i], a.o[i], w, Mul(w, a.shifter1), Mul(w, a.shifter2),
                   a.s1[i], a.s2[i], a.s3[i], a.gamma) == 0
  {
    var w := Pow(a.omega, i);
    MulComm(w, a.shifter1);
    MulComm(w, a.shifter2);
    var f, g := Numerator(a, i), Denominator(a, i);
    var next := ShiftZ(z)[i];
    if i < n - 1 {
      assert next == z[i + 1] by {
        DivModUnique(i + 1, 0, i + 1, n);
      }
    } else {
      ZIsAccumulator(a, z, n, n - 1);
      assert next == Mul(Mul(z[i], f), Inv(g));
    }
    assert OrderingTerm(z[i], next, a.l[i], a.r[i], a.o[i], w, Mul(w, a.shifter1), Mul(w, a.shifter2),
                   a.s1[i], a.s2[i], a.s3[i], a.gamma) == Sub(Mul(g, next), Mul(f, z[i]));
    StepCancels(z[i], next, f, g);
  }

  /** A vector that starts at 1 and follows the recurrence is the accumulator. */
  lemma {:induction false} ZIsAccumulator(a: AccumulatorInputs, z: seq<Fe>, n: nat, k: nat)
    requires n >= 1 && Covers(a, n - 1) && |z| == n
    requires z[0] == 1
    requires forall j :: 0 <= j < n - 1 ==> z[j + 1] == Mul(Mul(z[j], Numerator(a, j)), Inv(Denominator(a, j)))
    requires k < n
    ensures z[k] == Accumulator(a, k)
  {
    if k > 0 {
      ZIsAccumulator(a, z, n, k - 1);
    }
  }

  /** If z' = z·f/g with g nonzero, then g·z' − f·z == 0. */
  lemma StepCancels(z: Fe, z': Fe, f: Fe, g: Fe)
    requires IsPrime(P)
    requires g != 0 && z' == Mul(Mul(z, f), Inv(g))
    ensures Sub(Mul(g, z'), Mul(f, z)) == 0
  {
    calc {
      Mul(g, z');
      { MulComm(g, z'); }
      Mul(Mul(Mul(z, f), Inv(g)), g);
      { DivideOut(Mul(z, f), g); }
      Mul(z, f);
      { MulComm(z, f); }
      Mul(f, z);
    }
  }

  /** The ordering term at every coset point, with the identity taken at the point itself. */
  function OrderingOnCosets<G>(b: Backend<G>, cs1: seq<Fe>, cs2: seq<Fe>, cs3: seq<Fe>,
                               omega: Fe, g: Fe, shifter1: Fe, shifter2: Fe, n: nat,
                               evalZ: seq<Fe>, evalZu: seq<Fe>, evalL: seq<Fe>, evalR: seq<Fe>, evalO: seq<Fe>,
                               gamma: Fe): (v: seq<Fe>)
    requires |evalZ| == 4 * n && |evalZu| == 4 * n
    requires |evalL| == 4 * n && |evalR| == 4 * n && |evalO| == 4 * n
    ensures |v| == 4 * n
  {
    seq(4 * n, k requires 0 <= k < 4 * n =>
      var id := CosetPoint(omega, g, k);
      OrderingTerm(evalZ[k], evalZu[k], evalL[k], evalR[k], evalO[k], id, Mul(id, shifter1), Mul(id, shifter2),
                   CosetValue(b, cs1, n, k), CosetValue(b, cs2, n, k), CosetValue(b, cs3, n, k), gamma))
  }

  /** `evalConstraintOrdering`: the ordering term at every coset point. */
  method EvalConstraintOrdering<G>(b: Backend<G>, cs1: seq<Fe>, cs2: seq<Fe>, cs3: seq<Fe>,
                                   omega: Fe, g: Fe, shifter1: Fe, shifter2: Fe, n: nat,
                                   evalZ: seq<Fe>, evalZu: seq<Fe>, evalL: seq<Fe>, evalR: seq<Fe>, evalO: seq<Fe>,
                                   gamma: Fe)
    returns (res: seq<Fe>)
    requires |evalZ| == 4 * n && |evalZu| == 4 * n
    requires |evalL| == 4 * n && |evalR| == 4 * n && |evalO| == 4 * n
    ensures |res| == 4 * n
    ensures forall k :: 0 <= k < 4 * n ==>
      var id := CosetPoint(omega, g, k);
      res[k] == OrderingTerm(evalZ[k], evalZu[k], evalL[k], evalR[k], evalO[k],
                             id, Mul(id, shifter1), Mul(id, shifter2),
                             CosetValue(b, cs1, n, k), CosetValue(b, cs2, n, k), CosetValue(b, cs3, n, k), gamma)
    ensures res == OrderingOnCosets(b, cs1, cs2, cs3, omega, g, shifter1, shifter2, n, evalZ, evalZu,
                                    evalL, evalR, evalO, gamma)
  {
    var evalS1 := EvaluateCosets(b, cs1, n);
    var evalS2 := EvaluateCosets(b, cs2, n);
    var evalS3 := EvaluateCosets(b, cs3, n);
    var evalID, evaluID, evaluuID := EvalIDCosets(omega, g, shifter1, shifter2, n);
    res := seq(4 * n, _ => 0);
    var i := 0;
    while i < 4 * n
      invariant 0 <= i <= 4 * n
      invariant |res| == 4 * n
      invariant forall k :: 0 <= k < i ==>
        res[k] == OrderingTerm(evalZ[k], evalZu[k], evalL[k], evalR[k], evalO[k],
                               evalID[k], evaluID[k], evaluuID[k], evalS1[k], evalS2[k], evalS3[k], gamma)
    {
      res := res[i := OrderingTerm(evalZ[i], evalZu[i], evalL[i], evalR[i], evalO[i],
                                   evalID[i], evaluID[i], evaluuID[i], evalS1[i], evalS2[i], evalS3[i], gamma)];
      i := i + 1;
    }
  }

  // ---------------------------------------------------------------------
  // Starts at one.
  // ---------------------------------------------------------------------

  /** L1·(Z − 1) at one point. */
  function StartsAtOneTerm(l1: Fe, z: Fe): Fe
  {
    Mul(Sub(z, 1), l1)
  }

  /** The first Lagrange polynomial L1 on the domain: one at the first point, zero elsewhere. */
  function LagrangeOne(n: nat): (v: seq<Fe>)
    requires n >= 1
    ensures |v| == n && v[0] == 1
    ensures forall i :: 1 <= i < n ==> v[i] == 0
  {
    [1] + seq(n - 1, _ => 0)
  }

  /**
   * On the domain the starts-at-one term vanishes everywhere exactly when
   * Z starts at one.
   */
  lemma StartsAtOneVanishes(z: seq<Fe>)
    requires |z| >= 1
    ensures (forall i :: 0 <= i < |z| ==> StartsAtOneTerm(LagrangeOne(|z|)[i], z[i]) == 0) <==> z[0] == 1
  {
    var l1 := LagrangeOne(|z|);
    MulOneLeft(Sub(z[0], 1));
    assert StartsAtOneTerm(l1[0], z[0]) == Sub(z[0], 1);
    SubZero(z[0], 1);
    if z[0] == 1 {
      forall i | 0 <= i < |z|
        ensures StartsAtOneTerm(l1[i], z[i]) == 0
      {
        MulZero(Sub(z[i], 1));
      }
    }
  }

  /** (Z − 1)·L1 at every coset point, with L1 interpolated from its Lagrange form. */
  function StartsAtOneOnCosets<G>(b: Backend<G>, n: nat, evalZ: seq<Fe>): (v: seq<Fe>)
    requires n >= 1
    requires |evalZ| == 4 * n
    ensures |v| == 4 * n
  {
    var l1 := InPlace(b.fftInverse(DomainNum, LagrangeOne(n), DIT, 0), LagrangeOne(n));
    seq(4 * n, k requires 0 <= k < 4 * n => StartsAtOneTerm(CosetValue(b, l1, n, k), evalZ[k]))
  }

  /**
   * `evalStartsAtOne`: L1 is moved to canonical form by an inverse FFT (DIT,
   * no coset, no bit reversal), evaluated on the cosets, and multiplied by
   * Z − 1 point by point.
   */
  method EvalStartsAtOne<G>(b: Backend<G>, n: nat, evalZ: seq<Fe>) returns (res: seq<Fe>)
    requires n >= 1
    requires |evalZ| == 4 * n
    ensures |res| == 4 * n
    ensures forall k :: 0 <= k < 4 * n ==>
      res[k] == StartsAtOneTerm(CosetValue(b, InPlace(b.fftInverse(DomainNum, LagrangeOne(n), DIT, 0), LagrangeOne(n)), n, k), evalZ[k])
    ensures res == StartsAtOneOnCosets(b, n, evalZ)
  {
    var lOne := LagrangeOne(n);
    lOne := InPlace(b.fftInverse(DomainNum, lOne, DIT, 0), lOne);
    var l1 := EvaluateCosets(b, lOne, n);
    res := l1;
    var i := 0;
    while i < 4 * n
      invariant 0 <= i <= 4 * n
      invariant |res| == 4 * n
      invariant forall k :: 0 <= k < i ==> res[k] == StartsAtOneTerm(l1[k], evalZ[k])
      invariant forall k :: i <= k < 4 * n ==> res[k] == l1[k]
    {
      var buf := Sub(evalZ[i], 1);
      res := res[i := Mul(buf, res[i])];
      i := i + 1;
    }
  }
}
