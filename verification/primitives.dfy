/**
 * The collaborators the prover calls but that are not part of this model:
 * the constraint solver, the FFT package of gnark-crypto, KZG commitments,
 * the elliptic-curve group of digests and the transcript's hash. Each is a
 * function value of a `Backend` record, so every property proved about the
 * prover holds for whatever these calls compute.
 */
module Primitives {
  import opened Wrappers
  import opened Field
  import opened Polynomials
  import opened WireLayout
  import Transcript

  /** Decimation order of an FFT (`fft.DIT`, `fft.DIF`). */
  datatype Decimation = DIT | DIF

  /** The two evaluation domains of the proving key: size n and size 4n. */
  datatype Domain = DomainNum | DomainH

  /** `kzg.OpeningProof`: the quotient commitment and the claimed value. */
  datatype OpeningProof<G> = OpeningProof(h: G, claimedValue: Fe)

  /** `kzg.BatchOpeningProof`: one quotient commitment and one claimed value per polynomial. */
  datatype BatchOpeningProof<G> = BatchOpeningProof(h: G, claimedValues: seq<Fe>)

  /**
   * The external operations, over an abstract group G of KZG digests.
   * `fft`/`fftInverse` return the transformed vector; the prover applies
   * them in place, which `InPlace` models by keeping the buffer length.
   */
  datatype Backend<!G> = Backend(
    solve: (SparseR1CS, seq<Fe>) -> Result<seq<Fe>>,
    fft: (seq<Fe>, Decimation, nat) -> seq<Fe>,
    fftInverse: (Domain, seq<Fe>, Decimation, nat) -> seq<Fe>,
    bitReverse: seq<Fe> -> seq<Fe>,
    commit: seq<Fe> -> Result<G>,
    open: (seq<Fe>, Fe) -> OpeningProof<G>,
    batchOpen: (seq<seq<Fe>>, seq<G>, Fe) -> BatchOpeningProof<G>,
    groupAdd: (G, G) -> G,
    groupScale: (G, Fe) -> G,
    zeroDigest: G,
    hash: (Transcript.Slot, seq<G>) -> Fe)

  /** A library call that overwrites the slice it is given: the length never changes. */
  function InPlace(result: seq<Fe>, buffer: seq<Fe>): (r: seq<Fe>)
    ensures |r| == |buffer|
  {
    Fit(result, |buffer|)
  }

  /** `FFTInverse` followed by `BitReverse`: Lagrange basis to canonical basis, in place. */
  function ToCanonical<G>(b: Backend<G>, d: Domain, v: seq<Fe>, dec: Decimation, coset: nat): (r: seq<Fe>)
    ensures |r| == |v|
  {
    var w := InPlace(b.fftInverse(d, v, dec, coset), v);
    InPlace(b.bitReverse(w), w)
  }
}
