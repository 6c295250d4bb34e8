/**
 * Polynomials of the gnark-crypto `polynomial` package: a sequence of field
 * elements, either coefficients (canonical basis) or values on the domain
 * (Lagrange basis). Only the operations the prover uses are modelled.
 */
module Polynomials {
  import opened Field

  /** Coefficient i, reading past the end as zero. */
  function Coeff(p: seq<Fe>, i: nat): Fe
  {
    if i < |p| then p[i] else 0
  }

  /** `copy(make([]fr.Element, n), s)`: s truncated or padded with zeros to length n. */
  function Fit(s: seq<Fe>, n: nat): (r: seq<Fe>)
    ensures |r| == n
    ensures forall i :: 0 <= i < n ==> r[i] == Coeff(s, i)
  {
    if n <= |s| then s[..n] else s + seq(n - |s|, _ => 0)
  }

  /** `p.Clone().ScaleInPlace(&c)`. */
  function Scale(p: seq<Fe>, c: Fe): (r: seq<Fe>)
    ensures |r| == |p|
    ensures forall i :: 0 <= i < |p| ==> r[i] == Mul(p[i], c)
  {
    seq(|p|, i requires 0 <= i < |p| => Mul(p[i], c))
  }

  function Max(a: nat, b: nat): nat
  {
    if a < b then b else a
  }

  /**
   * `Polynomial.Add`: the longer operand is copied and the shorter one added
   * onto its prefix.
   */
  function PolyAdd(a: seq<Fe>, b: seq<Fe>): (r: seq<Fe>)
    ensures |r| == Max(|a|, |b|)
    ensures forall i :: 0 <= i < |r| ==> r[i] == Add(Coeff(a, i), Coeff(b, i))
  {
    var bigger := if |a| < |b| then b else a;
    var smaller := if |a| < |b| then a else b;
    var r := seq(|bigger|, i requires 0 <= i < |bigger| =>
      if i < |smaller| then Add(bigger[i], smaller[i]) else bigger[i]);
    assert forall i :: |smaller| <= i < |r| ==> r[i] == Add(Coeff(a, i), Coeff(b, i)) by {
      forall i | |smaller| <= i < |r| {
        AddZero(bigger[i]);
      }
    }
    r
  }

  lemma CoeffScale(p: seq<Fe>, c: Fe, i: nat)
    ensures Coeff(Scale(p, c), i) == Mul(Coeff(p, i), c)
  {
    MulZero(c);
  }

  lemma CoeffAdd(a: seq<Fe>, b: seq<Fe>, i: nat)
    ensures Coeff(PolyAdd(a, b), i) == Add(Coeff(a, i), Coeff(b, i))
  {
  }

  /** `Polynomial.Eval`: Horner's rule from the leading coefficient down. */
  function Eval(p: seq<Fe>, x: Fe): Fe
  {
    if |p| == 0 then 0 else Add(Mul(Eval(p[1..], x), x), p[0])
  }

  lemma {:induction false} EvalAdd(a: seq<Fe>, b: seq<Fe>, x: Fe)
    ensures Eval(PolyAdd(a, b), x) == Add(Eval(a, x), Eval(b, x))
    decreases |a| + |b|
  {
    if |a| == 0 || |b| == 0 {
      EvalAddEmpty(a, b, x);
    } else {
      EvalAdd(a[1..], b[1..], x);
      EvalAddCons(a, b, x);
    }
  }

  lemma EvalAddEmpty(a: seq<Fe>, b: seq<Fe>, x: Fe)
    requires |a| == 0 || |b| == 0
    ensures Eval(PolyAdd(a, b), x) == Add(Eval(a, x), Eval(b, x))
  {
    if |a| == 0 {
      assert PolyAdd(a, b) == b;
      AddZero(Eval(b, x));
    } else {
      assert PolyAdd(a, b) == a;
      AddZero(Eval(a, x));
    }
  }

  /** The inductive step of `EvalAdd`: from the tails to the whole. */
  lemma EvalAddCons(a: seq<Fe>, b: seq<Fe>, x: Fe)
    requires |a| > 0 && |b| > 0
    requires Eval(PolyAdd(a[1..], b[1..]), x) == Add(Eval(a[1..], x), Eval(b[1..], x))
    ensures Eval(PolyAdd(a, b), x) == Add(Eval(a, x), Eval(b, x))
  {
    var r := PolyAdd(a, b);
    PolyAddTail(a, b);
    var ea, eb := Eval(a[1..], x), Eval(b[1..], x);
    assert Eval(r, x) == Add(Mul(Add(ea, eb), x), Add(a[0], b[0]));
    HornerAddStep(ea, eb, x, a[0], b[0]);
  }

  lemma PolyAddTail(a: seq<Fe>, b: seq<Fe>)
    requires |a| > 0 && |b| > 0
    ensures PolyAdd(a, b)[0] == Add(a[0], b[0])
    ensures PolyAdd(a, b)[1..] == PolyAdd(a[1..], b[1..])
  {
    var r, t := PolyAdd(a, b)[1..], PolyAdd(a[1..], b[1..]);
    forall i | 0 <= i < |r|
      ensures r[i] == t[i]
    {
      assert Coeff(a, i + 1) == Coeff(a[1..], i);
      assert Coeff(b, i + 1) == Coeff(b[1..], i);
    }
  }

  lemma HornerAddStep(ea: Fe, eb: Fe, x: Fe, a0: Fe, b0: Fe)
    ensures Add(Mul(Add(ea, eb), x), Add(a0, b0)) == Add(Add(Mul(ea, x), a0), Add(Mul(eb, x), b0))
  {
    var p, q := Mul(ea, x), Mul(eb, x);
    MulComm(Add(ea, eb), x);
    MulAddDistrib(x, ea, eb);
    MulComm(x, ea);
    MulComm(x, eb);
    assert Mul(Add(ea, eb), x) == Add(p, q);
    AddSwapMiddle(p, q, a0, b0);
  }

  lemma {:induction false} EvalScale(p: seq<Fe>, c: Fe, x: Fe)
    ensures Eval(Scale(p, c), x) == Mul(Eval(p, x), c)
    decreases |p|
  {
    if |p| == 0 {
      MulZero(c);
    } else {
      var s := Scale(p, c);
      assert s[1..] == Scale(p[1..], c);
      EvalScale(p[1..], c, x);
      HornerScaleStep(Eval(p[1..], x), c, x, p[0]);
    }
  }

  lemma HornerScaleStep(e: Fe, c: Fe, x: Fe, p0: Fe)
    ensures Add(Mul(Mul(e, c), x), Mul(p0, c)) == Mul(Add(Mul(e, x), p0), c)
  {
    calc {
      Add(Mul(Mul(e, c), x), Mul(p0, c));
      Add(Mul(FromInt(e * c), x), FromInt(p0 * c));
      { MulLift(e * c, x); FromFe(x); }
      Add(FromInt(e * c * x), FromInt(p0 * c));
      { AddLift(e * c * x, p0 * c); }
      FromInt(e * c * x + p0 * c);
      { IdentityScaleStep(e, c, x, p0); }
      FromInt((e * x + p0) * c);
      { MulLift(e * x + p0, c); FromFe(c); }
      Mul(FromInt(e * x + p0), c);
      { AddLift(e * x, p0); FromFe(p0); }
      Mul(Add(FromInt(e * x), p0), c);
      Mul(Add(Mul(e, x), p0), c);
    }
  }

  lemma IdentityScaleStep(e: int, c: int, x: int, p0: int)
    ensures e * c * x + p0 * c == (e * x + p0) * c
  {
  }

  /** Evaluating a concatenation: the tail is shifted by x^|a|. */
  lemma {:induction false} EvalConcat(a: seq<Fe>, b: seq<Fe>, x: Fe)
    ensures Eval(a + b, x) == Add(Eval(a, x), Mul(Pow(x, |a|), Eval(b, x)))
    decreases |a|
  {
    if |a| == 0 {
      assert a + b == b;
      MulOneLeft(Eval(b, x));
    } else {
      assert (a + b)[1..] == a[1..] + b;
      EvalConcat(a[1..], b, x);
      HornerConcatStep(Eval(a[1..], x), Pow(x, |a| - 1), Eval(b, x), x, a[0]);
    }
  }

  lemma HornerConcatStep(ea: Fe, w: Fe, eb: Fe, x: Fe, a0: Fe)
    ensures Add(Mul(Add(ea, Mul(w, eb)), x), a0) == Add(Add(Mul(ea, x), a0), Mul(Mul(w, x), eb))
  {
    calc {
      Add(Mul(Add(ea, Mul(w, eb)), x), a0);
      Add(Mul(Add(ea, FromInt(w * eb)), x), a0);
      { AddLift(ea, w * eb); FromFe(ea); }
      Add(Mul(FromInt(ea + w * eb), x), a0);
      { MulLift(ea + w * eb, x); FromFe(x); }
      Add(FromInt((ea + w * eb) * x), a0);
      { AddLift((ea + w * eb) * x, a0); FromFe(a0); }
      FromInt((ea + w * eb) * x + a0);
      { IdentityConcatStep(ea, w, eb, x, a0); }
      FromInt((ea * x + a0) + (w * x) * eb);
      { AddLift(ea * x + a0, (w * x) * eb); }
      Add(FromInt(ea * x + a0), FromInt((w * x) * eb));
      { AddLift(ea * x, a0); FromFe(a0); }
      Add(Add(FromInt(ea * x), a0), FromInt((w * x) * eb));
      { MulLift(w * x, eb); FromFe(eb); }
      Add(Add(Mul(ea, x), a0), Mul(FromInt(w * x), eb));
      Add(Add(Mul(ea, x), a0), Mul(Mul(w, x), eb));
    }
  }

  lemma IdentityConcatStep(ea: int, w: int, eb: int, x: int, a0: int)
    ensures (ea + w * eb) * x + a0 == (ea * x + a0) + (w * x) * eb
  {
  }
}
