/**
 * Evaluation on the four odd cosets g·H, g³·H, g⁵·H, g⁷·H of the size-n
 * domain H = <ω>, where g is the finer generator (a primitive 8n-th root of
 * unity). Vectors of size 4n hold these evaluations interleaved: slot 4i+j
 * is the point ω^i·g^(2j+1).
 */
module Cosets {
  import opened Field
  import opened Polynomials
  import opened Primitives

  /** The coset point at slot k of an interleaved vector: ω^(k/4)·g^(2(k%4)+1). */
  function CosetPoint(omega: Fe, g: Fe, k: nat): Fe
  {
    Mul(Pow(omega, k / 4), Pow(g, 2 * (k % 4) + 1))
  }

  /** g^k·g² == g^(k+2): the step from one odd power of g to the next. */
  lemma PowStepTwo(g: Fe, k: nat)
    ensures Mul(Pow(g, k), Mul(g, g)) == Pow(g, k + 2)
  {
    MulAssoc(Pow(g, k), g, g);
  }

  /** The four odd powers g, g³, g⁵, g⁷, computed with repeated multiplication by g². */
  method OddPowers(g: Fe) returns (u: seq<Fe>)
    ensures |u| == 4
    ensures forall j :: 0 <= j < 4 ==> u[j] == Pow(g, 2 * j + 1)
  {
    var uu := Mul(g, g);
    MulOneLeft(g);
    var u0 := g;
    PowStepTwo(g, 1);
    var u1 := Mul(u0, uu);
    PowStepTwo(g, 3);
    var u2 := Mul(u1, uu);
    PowStepTwo(g, 5);
    var u3 := Mul(u2, uu);
    u := [u0, u1, u2, u3];
  }

  /**
   * `evalIDCosets`: the identity permutation id(X) = X and its two shifted
   * copies u·X and u²·X, evaluated on the interleaved odd cosets.
   */
  method EvalIDCosets(omega: Fe, g: Fe, shifter1: Fe, shifter2: Fe, n: nat)
    returns (id: seq<Fe>, uid: seq<Fe>, uuid: seq<Fe>)
    ensures |id| == 4 * n && |uid| == 4 * n && |uuid| == 4 * n
    ensures forall k :: 0 <= k < 4 * n ==> id[k] == CosetPoint(omega, g, k)
    ensures forall k :: 0 <= k < 4 * n ==> uid[k] == Mul(id[k], shifter1)
    ensures forall k :: 0 <= k < 4 * n ==> uuid[k] == Mul(id[k], shifter2)
  {
    var u := OddPowers(g);
    id := IdentityTable(omega, u, n);
    forall k | 0 <= k < 4 * n
      ensures id[k] == CosetPoint(omega, g, k)
    {
      assert u[k % 4] == Pow(g, 2 * (k % 4) + 1);
    }
    uid := ScaleVector(id, shifter1);
    uuid := ScaleVector(id, shifter2);
  }

  /** The loop of `evalIDCosets` that fills the table from the four coset offsets u. */
  method IdentityTable(omega: Fe, u: seq<Fe>, n: nat) returns (id: seq<Fe>)
    requires |u| == 4
    ensures |id| == 4 * n
    ensures forall k :: 0 <= k < 4 * n ==> id[k] == Mul(Pow(omega, k / 4), u[k % 4])
  {
    id := seq(4 * n, _ => 0);
    if n == 0 {
      return;
    }
    forall j | 0 <= j < 4
      ensures Mul(Pow(omega, 0), u[j]) == u[j]
    {
      MulOneLeft(u[j]);
    }
    id := id[0 := u[0]][1 := u[1]][2 := u[2]][3 := u[3]];
    var zn: Fe := 1;
    var i := 1;
    while i < n
      invariant 1 <= i <= n
      invariant |id| == 4 * n
      invariant zn == Pow(omega, i - 1)
      invariant forall k :: 0 <= k < 4 * i ==> id[k] == Mul(Pow(omega, k / 4), u[k % 4])
    {
      zn := Mul(zn, omega);
      id := id[4 * i := Mul(zn, u[0])][4 * i + 1 := Mul(zn, u[1])]
             [4 * i + 2 := Mul(zn, u[2])][4 * i + 3 := Mul(zn, u[3])];
      i := i + 1;
    }
  }

  /** The parallel loop of `evalIDCosets`: every slot multiplied by a shifter. */
  method ScaleVector(v: seq<Fe>, c: Fe) returns (r: seq<Fe>)
    ensures |r| == |v|
    ensures forall k :: 0 <= k < |v| ==> r[k] == Mul(v[k], c)
  {
    r := seq(|v|, _ => 0);
    var k := 0;
    while k < |v|
      invariant 0 <= k <= |v|
      invariant |r| == |v|
      invariant forall m :: 0 <= m < k ==> r[m] == Mul(v[m], c)
    {
      r := r[k := Mul(v[k], c)];
      k := k + 1;
    }
  }

  /** The four evaluation vectors of `evaluateCosets`, one per coset. */
  function Pick(e0: seq<Fe>, e1: seq<Fe>, e2: seq<Fe>, e3: seq<Fe>, j: nat): seq<Fe>
  {
    if j == 0 then e0 else if j == 1 then e1 else if j == 2 then e2 else e3
  }

  /** Slots j, j+4, j+8, … of an interleaved vector: the values on coset j. */
  function Stride(res: seq<Fe>, j: nat, n: nat): (e: seq<Fe>)
    requires j < 4 && |res| == 4 * n
    ensures |e| == n
  {
    seq(n, i requires 0 <= i < n => res[4 * i + j])
  }

  /** The final loop of `evaluateCosets`: res[4i+j] = e_j[i]. */
  method Interleave(e0: seq<Fe>, e1: seq<Fe>, e2: seq<Fe>, e3: seq<Fe>, n: nat) returns (res: seq<Fe>)
    requires |e0| == n && |e1| == n && |e2| == n && |e3| == n
    ensures |res| == 4 * n
    ensures forall k :: 0 <= k < 4 * n ==> res[k] == Pick(e0, e1, e2, e3, k % 4)[k / 4]
  {
    res := seq(4 * n, _ => 0);
    var i := 0;
    while i < n
      invariant 0 <= i <= n
      invariant |res| == 4 * n
      invariant forall k :: 0 <= k < 4 * i ==> res[k] == Pick(e0, e1, e2, e3, k % 4)[k / 4]
    {
      res := res[4 * i := e0[i]][4 * i + 1 := e1[i]][4 * i + 2 := e2[i]][4 * i + 3 := e3[i]];
      i := i + 1;
    }
  }

  /** Taking every fourth slot from offset j of an interleaved vector gives coset j's vector back. */
  lemma StrideInterleaved(res: seq<Fe>, e0: seq<Fe>, e1: seq<Fe>, e2: seq<Fe>, e3: seq<Fe>, n: nat)
    requires |e0| == n && |e1| == n && |e2| == n && |e3| == n
    requires |res| == 4 * n
    requires forall k :: 0 <= k < 4 * n ==> res[k] == Pick(e0, e1, e2, e3, k % 4)[k / 4]
    ensures forall j :: 0 <= j < 4 ==> Stride(res, j, n) == Pick(e0, e1, e2, e3, j)
  {
    forall j | 0 <= j < 4
      ensures Stride(res, j, n) == Pick(e0, e1, e2, e3, j)
    {
      forall i | 0 <= i < n
        ensures Stride(res, j, n)[i] == Pick(e0, e1, e2, e3, j)[i]
      {
        SlotIndex(i, j);
        assert res[4 * i + j] == Pick(e0, e1, e2, e3, j)[i];
      }
    }
  }

  lemma SlotIndex(i: nat, j: nat)
    requires j < 4
    ensures (4 * i + j) / 4 == i && (4 * i + j) % 4 == j
  {
  }

  /** An interleaved vector is determined by its four strides. */
  lemma {:induction false} StridesDetermine(a: seq<Fe>, b: seq<Fe>, n: nat)
    requires |a| == 4 * n && |b| == 4 * n
    requires forall j :: 0 <= j < 4 ==> Stride(a, j, n) == Stride(b, j, n)
    ensures a == b
  {
    forall k | 0 <= k < 4 * n
      ensures a[k] == b[k]
    {
      var i, j := k / 4, k % 4;
      assert k == 4 * i + j;
      assert Stride(a, j, n)[i] == Stride(b, j, n)[i];
    }
  }

  /**
   * `evaluateCosets`: the polynomial is copied into a length-n buffer,
   * bit-reversed, transformed on each of the four cosets (shifts 1, 3, 5, 7)
   * and interleaved into a vector of length 4n.
   */
  method EvaluateCosets<G>(b: Backend<G>, poly: seq<Fe>, n: nat) returns (res: seq<Fe>)
    ensures |res| == 4 * n
    ensures forall k :: 0 <= k < 4 * n ==> res[k] == CosetValues(b, poly, n, 2 * (k % 4) + 1)[k / 4]
    ensures res == CosetVector(b, poly, n)
  {
    var e0 := BitReversedCopy(b, poly, n);
    var c0, c1, c2, c3 := InPlace(b.fft(e0, DIT, 1), e0), InPlace(b.fft(e0, DIT, 3), e0),
                          InPlace(b.fft(e0, DIT, 5), e0), InPlace(b.fft(e0, DIT, 7), e0);
    res := Interleave(c0, c1, c2, c3, n);
    forall k | 0 <= k < 4 * n
      ensures res[k] == CosetValues(b, poly, n, 2 * (k % 4) + 1)[k / 4]
    {
      PickCoset(b, poly, n, k % 4);
    }
  }

  lemma PickCoset<G>(b: Backend<G>, poly: seq<Fe>, n: nat, j: nat)
    requires j < 4
    ensures
      var e0 := BitReversedCopy(b, poly, n);
      Pick(InPlace(b.fft(e0, DIT, 1), e0), InPlace(b.fft(e0, DIT, 3), e0),
           InPlace(b.fft(e0, DIT, 5), e0), InPlace(b.fft(e0, DIT, 7), e0), j)
      == CosetValues(b, poly, n, 2 * j + 1)
  {
  }

  /** `copy(e0, poly)` into a length-n buffer, then `fft.BitReverse(e0)`. */
  function BitReversedCopy<G>(b: Backend<G>, poly: seq<Fe>, n: nat): (e: seq<Fe>)
    ensures |e| == n
  {
    var e0 := Fit(poly, n);
    InPlace(b.bitReverse(e0), e0)
  }

  /** The 4n interleaved values: slot k holds point k/4 of odd coset 2(k%4)+1. */
  function CosetVector<G>(b: Backend<G>, poly: seq<Fe>, n: nat): (v: seq<Fe>)
    ensures |v| == 4 * n
  {
    seq(4 * n, k requires 0 <= k < 4 * n => CosetValues(b, poly, n, 2 * (k % 4) + 1)[k / 4])
  }

  /** The values on one coset: the bit-reversed copy transformed with coset shift `coset`. */
  function CosetValues<G>(b: Backend<G>, poly: seq<Fe>, n: nat, coset: nat): (e: seq<Fe>)
    ensures |e| == n
  {
    var e0 := BitReversedCopy(b, poly, n);
    InPlace(b.fft(e0, DIT, coset), e0)
  }
}
