/**
 * The proving and verifying keys, as far as the prover reads them. The
 * KZG structured reference string is held by the `Backend` commitment
 * functions and does not appear here.
 */
module Keys {
  import opened Field

  /** `VerifyingKey`: the generator of the size-n domain, the two coset shifters and Comm(S1), Comm(S2). */
  datatype VerifyingKey<G> = VerifyingKey(generator: Fe, shifter1: Fe, shifter2: Fe, s1: G, s2: G)

  /**
   * `ProvingKey`: the selectors and permutation polynomials in canonical
   * form (ql, qr, qm, qo, cqk, cs1..cs3) and in Lagrange form (lqk,
   * ls1..ls3), and the two evaluation domains: the size-n domain `DomainNum`
   * with its generator ω and finer generator g, and the size of `DomainH`.
   */
  datatype ProvingKey<G> = ProvingKey(
    ql: seq<Fe>, qr: seq<Fe>, qm: seq<Fe>, qo: seq<Fe>, cqk: seq<Fe>, lqk: seq<Fe>,
    cs1: seq<Fe>, cs2: seq<Fe>, cs3: seq<Fe>, ls1: seq<Fe>, ls2: seq<Fe>, ls3: seq<Fe>,
    cardinality: nat, generator: Fe, finerGenerator: Fe, hCardinality: nat,
    vk: VerifyingKey<G>)
}
