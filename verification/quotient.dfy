/**
 * `computeH`: the quotient h = (gate + α·ordering + α²·startsAtOne) / Z_H on
 * the four odd cosets, brought back to canonical form and split into three
 * blocks of n coefficients.
 */
module Quotient {
  import opened Field
  import opened Polynomials
  import opened Primitives
  import opened Cosets

  /** Z_H(X) = X^n − 1 at the coset offset g^(2j+1); constant on the whole coset. */
  function Vanishing(g: Fe, n: nat, j: nat): Fe
  {
    Sub(Pow(Pow(g, 2 * j + 1), n), 1)
  }

  /**
   * X^n − 1 is constant on each coset: when ω^n = 1, its value at the
   * interleaved slot k, the point ω^(k/4)·g^(2(k%4)+1), is the value at the
   * coset's offset g^(2(k%4)+1).
   */
  lemma VanishingOnCoset(omega: Fe, g: Fe, n: nat, k: nat)
    requires Pow(omega, n) == 1
    ensures Sub(Pow(CosetPoint(omega, g, k), n), 1) == Vanishing(g, n, k % 4)
  {
    var q, c := k / 4, Pow(g, 2 * (k % 4) + 1);
    calc {
      Pow(CosetPoint(omega, g, k), n);
      Pow(Mul(Pow(omega, q), c), n);
      { PowMul(Pow(omega, q), c, n); }
      Mul(Pow(Pow(omega, q), n), Pow(c, n));
      { PowPow(omega, q, n); PowPow(omega, n, q); assert q * n == n * q; }
      Mul(Pow(Pow(omega, n), q), Pow(c, n));
      { PowOne(q); MulOneLeft(Pow(c, n)); }
      Pow(c, n);
    }
  }

  /** The quotient at one coset point, with the division written as an inverse. */
  function QuotientValue(ind: Fe, ord: Fe, start: Fe, alpha: Fe, vanishing: Fe): Fe
  {
    Mul(Add(Add(ind, Mul(alpha, ord)), Mul(Mul(alpha, alpha), start)), Inv(vanishing))
  }

  /** The quotient at every point of the size-hCard coset vector, slot i on coset i % 4. */
  function QuotientOnCosets(ind: seq<Fe>, ord: seq<Fe>, start: seq<Fe>, alpha: Fe, g: Fe, n: nat, hCard: nat): (q: seq<Fe>)
    requires |ind| >= hCard && |ord| >= hCard && |start| >= hCard
    ensures |q| == hCard
  {
    seq(hCard, i requires 0 <= i < hCard => QuotientValue(ind[i], ord[i], start[i], alpha, Vanishing(g, n, i % 4)))
  }

  /**
   * Slot k of the quotient vector divides the numerator at slot k by
   * X^n − 1 taken at that slot's own coset point.
   */
  lemma QuotientAtCosetPoint(ind: seq<Fe>, ord: seq<Fe>, start: seq<Fe>, alpha: Fe, omega: Fe, g: Fe,
                             n: nat, hCard: nat, k: nat)
    requires |ind| >= hCard && |ord| >= hCard && |start| >= hCard
    requires Pow(omega, n) == 1 && k < hCard
    ensures QuotientOnCosets(ind, ord, start, alpha, g, n, hCard)[k]
            == QuotientValue(ind[k], ord[k], start[k], alpha, Sub(Pow(CosetPoint(omega, g, k), n), 1))
  {
    VanishingOnCoset(omega, g, n, k);
  }

  /** Where the vanishing polynomial does not vanish, the quotient times Z_H gives back the numerator. */
  lemma QuotientDivides(ind: Fe, ord: Fe, start: Fe, alpha: Fe, vanishing: Fe)
    requires IsPrime(P)
    requires vanishing != 0
    ensures Mul(QuotientValue(ind, ord, start, alpha, vanishing), vanishing)
            == Add(Add(ind, Mul(alpha, ord)), Mul(Mul(alpha, alpha), start))
  {
    DivideOut(Add(Add(ind, Mul(alpha, ord)), Mul(Mul(alpha, alpha), start)), vanishing);
  }

  /** The Horner evaluation order of `computeH` computes ind + α·ord + α²·start. */
  lemma HornerNumerator(ind: Fe, ord: Fe, start: Fe, alpha: Fe)
    ensures Add(Mul(Add(Mul(start, alpha), ord), alpha), ind)
            == Add(Add(ind, Mul(alpha, ord)), Mul(Mul(alpha, alpha), start))
  {
    calc {
      Add(Mul(Add(Mul(start, alpha), ord), alpha), ind);
      { MulLift(start, alpha); FromFe(ord); AddLift(start * alpha, ord); }
      Add(Mul(FromInt(start * alpha + ord), alpha), ind);
      { FromFe(alpha); MulLift(start * alpha + ord, alpha); }
      Add(FromInt((start * alpha + ord) * alpha), ind);
      { FromFe(ind); AddLift((start * alpha + ord) * alpha, ind); }
      FromInt((start * alpha + ord) * alpha + ind);
      { HornerIdentity(ind, ord, start, alpha); }
      FromInt(ind + alpha * ord + alpha * alpha * start);
      { AddLift(ind + alpha * ord, alpha * alpha * start); }
      Add(FromInt(ind + alpha * ord), FromInt(alpha * alpha * start));
      { MulLift(alpha * alpha, start); FromFe(start); MulLift(alpha, alpha); }
      Add(FromInt(ind + alpha * ord), Mul(Mul(alpha, alpha), start));
      { FromFe(ind); MulLift(alpha, ord); AddLift(ind, alpha * ord); }
      Add(Add(ind, Mul(alpha, ord)), Mul(Mul(alpha, alpha), start));
    }
  }

  lemma HornerIdentity(ind: int, ord: int, start: int, alpha: int)
    ensures (start * alpha + ord) * alpha + ind == ind + alpha * ord + alpha * alpha * start
  {
  }

  /** `h1 := h[:n]; h2 := h[n:2n]; h3 := h[2n:3n]`. */
  function Split(h: seq<Fe>, n: nat): (r: (seq<Fe>, seq<Fe>, seq<Fe>))
    requires 3 * n <= |h|
    ensures |r.0| == n && |r.1| == n && |r.2| == n
    ensures forall i :: 0 <= i < n ==> r.0[i] == h[i] && r.1[i] == h[n + i] && r.2[i] == h[2 * n + i]
  {
    (h[..n], h[n..2 * n], h[2 * n..3 * n])
  }

  /** The three blocks are disjoint and, concatenated, cover exactly the first 3n coefficients. */
  lemma SplitCovers(h: seq<Fe>, n: nat)
    requires 3 * n <= |h|
    ensures var (h1, h2, h3) := Split(h, n); h1 + h2 + h3 == h[..3 * n]
  {
    var (h1, h2, h3) := Split(h, n);
    assert |h1 + h2 + h3| == 3 * n;
    forall i | 0 <= i < 3 * n
      ensures (h1 + h2 + h3)[i] == h[i]
    {
      if i < n {
      } else if i < 2 * n {
        assert (h1 + h2 + h3)[i] == h2[i - n];
      } else {
        assert (h1 + h2 + h3)[i] == h3[i - 2 * n];
      }
    }
  }

  /** The four vanishing values (g^(2j+1))^n − 1, inverted together as `computeH` does. */
  method VanishingInverses(g: Fe, n: nat) returns (uinv: seq<Fe>)
    ensures |uinv| == 4
    ensures forall j :: 0 <= j < 4 ==> uinv[j] == Inv(Vanishing(g, n, j))
  {
    var u := OddPowers(g);
    var v := [Sub(Pow(u[0], n), 1), Sub(Pow(u[1], n), 1), Sub(Pow(u[2], n), 1), Sub(Pow(u[3], n), 1)];
    uinv := BatchInvert(v);
  }

  /** The parallel loop of `computeH`: each slot's numerator in Horner form, times 1 / Z_H. */
  method QuotientLoop(ind: seq<Fe>, ord: seq<Fe>, start: seq<Fe>, alpha: Fe, g: Fe, n: nat, hCard: nat)
    returns (h: seq<Fe>)
    requires |ind| >= hCard && |ord| >= hCard && |start| >= hCard
    ensures h == QuotientOnCosets(ind, ord, start, alpha, g, n, hCard)
  {
    var uinv := VanishingInverses(g, n);
    h := seq(hCard, _ => 0);
    var i := 0;
    while i < hCard
      invariant 0 <= i <= hCard
      invariant |h| == hCard
      invariant forall k :: 0 <= k < i ==>
        h[k] == QuotientValue(ind[k], ord[k], start[k], alpha, Vanishing(g, n, k % 4))
    {
      HornerNumerator(ind[i], ord[i], start[i], alpha);
      h := h[i := Mul(Add(Mul(Add(Mul(start[i], alpha), ord[i]), alpha), ind[i]), uinv[i % 4])];
      i := i + 1;
    }
  }

  /**
   * `computeH`: the quotient on the cosets of the size-hCard domain, moved
   * to canonical form (inverse FFT with DIF and coset shift, then bit
   * reversal), and its first 3n coefficients split into h1, h2, h3.
   */
  method ComputeH<G>(b: Backend<G>, ind: seq<Fe>, ord: seq<Fe>, start: seq<Fe>, alpha: Fe, g: Fe, n: nat, hCard: nat)
    returns (h1: seq<Fe>, h2: seq<Fe>, h3: seq<Fe>)
    requires 3 * n <= hCard
    requires |ind| >= hCard && |ord| >= hCard && |start| >= hCard
    ensures |h1| == n && |h2| == n && |h3| == n
    ensures h1 + h2 + h3 == ToCanonical(b, DomainH, QuotientOnCosets(ind, ord, start, alpha, g, n, hCard), DIF, 1)[..3 * n]
    ensures (h1, h2, h3) == Split(ToCanonical(b, DomainH, QuotientOnCosets(ind, ord, start, alpha, g, n, hCard), DIF, 1), n)
  {
    var h := QuotientLoop(ind, ord, start, alpha, g, n, hCard);
    h := ToCanonical(b, DomainH, h, DIF, 1);
    SplitCovers(h, n);
    h1, h2, h3 := h[..n], h[n..2 * n], h[2 * n..3 * n];
  }
}
