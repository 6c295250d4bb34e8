# PLONK prover core (gnark, BLS12-381 instance)

A Dafny model of the PLONK prover in
`internal/backend/bls12-381/plonk/prove.go`. It also covers the two size helpers of
`backend/plonk/assert.go`: `nextPowerOfTwo` and the size computation of `newKZGSrs`.

## What is modelled

**Field.** Values live in the scalar field of BLS12-381 (`Field.Fe`, integers modulo the
fr modulus `P`). `P` is written as its hexadecimal digits,
`73eda753299d7d483339d80809a1d80553bda402fffe5bfeffffffff00000001`, and evaluated by
`HexValue`. The verifier therefore sees `P` as a number greater than 1, not as a
255-bit literal. Every field law is proved from that bound (and from primality where
stated), never from the digits. `Inv` is the extended-Euclid inverse. `Inv(0) = 0`, as in
`fr.Element.Inverse`. Laws that need `P` prime take `IsPrime(P)` as a hypothesis.

**Backend.** Everything the prover borrows from other packages is a field of
`Primitives.Backend`:
- the constraint solver;
- the FFT, the inverse FFT and bit reversal;
- the KZG commitment, opening and batch opening;
- the group operations on digests;
- the Fiat-Shamir hash.

Properties that depend on those calls are stated in terms of the Backend's results. The
proofs hold for every Backend.

**Transcript.** `Transcript` records the ordered list of bindings and the challenges
derived so far. A challenge for a slot (γ, α or ζ) hashes the slot name together with
every value bound, in order, to that slot or an earlier one.

**Stages of `Prove`.** Each stage of `Prove` is one member:

| Stage | Member |
|---|---|
| computeLRO | `WireLayout.ComputeLRO` |
| computeZ | `Permutation.ComputeZ` |
| shiftZ | `Permutation.ShiftZ` |
| evaluateCosets | `Cosets.EvaluateCosets` |
| evalIDCosets | `Cosets.EvalIDCosets` |
| evalConstraints | `Terms.EvalConstraints` |
| evalConstraintOrdering | `Terms.EvalConstraintOrdering` |
| evalStartsAtOne | `Terms.EvalStartsAtOne` |
| computeH | `Quotient.ComputeH` |
| folding of h and of its digests | `Linearization.FoldH` and `Linearization.FoldDigests` |
| computeLinearizedPolynomial | `Linearization.Linearize` |

**Error sequencing.** `Prover.Prove` reproduces how `Prove` sequences its fallible calls:
solve, the L/R/O commitments, the γ bindings, Z, α, h1..h3 and ζ. It returns a trace of
the steps taken in `Prover.Schedule`. A failure stops the prover at the failing step and
returns that step's error. It also returns the digests of the commitments that succeeded.
`Prover.ProvedFrom` ties each digest to the polynomial committed at its position:
`Prover.CommittedPolys` for the γ and α derived from the digests. It names the commitment
that failed and, on success, states both openings over those polynomials.

## Model

| member | source | states |
|---|---|---|
| WireLayout.ComputeLRO | internal/backend/bls12-381/plonk/prove.go:311-346 | the three wire vectors have the domain size. Slot i < nbPublic holds public input i in L and solution[0] in R and O. Gate i sits at slot nbPublic+i, and assertion i at slot nbPublic+nbConstraints+i; each reads its wires' variables from the solution. Every padding slot holds solution[0] in all three vectors |
| WireLayout.LayPublic | internal/backend/bls12-381/plonk/prove.go:320-324 | the public slots are filled as described above; every other slot is left untouched |
| WireLayout.LayGates | internal/backend/bls12-381/plonk/prove.go:325-336 | gate i's wire values land at offset+i; every slot outside the range is untouched |
| WireLayout.LayPadding | internal/backend/bls12-381/plonk/prove.go:337-342 | every slot from the offset on holds the padding value; earlier slots are untouched |
| WireLayout.PublicInputSelector | internal/backend/bls12-381/plonk/prove.go:149-152 | the full qk vector holds the public witness in its first nbPublic entries and pk.LQk afterwards |
| Permutation.ComputeZ | internal/backend/bls12-381/plonk/prove.go:357-404 | Z starts at 1. Each Z(ω^(i+1)) is Z(ω^i) times the identity-permutation product (l+ω^i+γ)(r+u·ω^i+γ)(o+u²·ω^i+γ), divided by the σ-permutation product (l+s1+γ)(r+s2+γ)(o+s3+γ) |
| Permutation.NumeratorPass | internal/backend/bls12-381/plonk/prove.go:373-392 | the first loop leaves the running product of numerators in z, and each step's denominator in gInv |
| Permutation.DivisionPass | internal/backend/bls12-381/plonk/prove.go:394-400 | multiplying in the batch-inverted denominators turns the numerator products into the accumulator |
| Permutation.DeferredDivision | internal/backend/bls12-381/plonk/prove.go:383-400 | deferring every division to one batch inversion after the loop gives the same accumulator as dividing at each step |
| Permutation.AccumulatorRatio | internal/backend/bls12-381/plonk/prove.go:348-355 | when the denominator is non-zero, Z(ω^(i+1)) times the denominator equals Z(ω^i) times the numerator. This is the product argument the permutation check relies on |
| Permutation.ShiftZ | internal/backend/bls12-381/plonk/prove.go:617-628 | Z(uX) in Lagrange form is Z rotated one slot left: entry i is z[(i+1) mod n], and the last entry is z[0] |
| Permutation.ShiftZTimesRotates | internal/backend/bls12-381/plonk/prove.go:617-628 | shifting k times is the rotation by k: entry i is z[(i+k) mod n] |
| Permutation.ShiftZCycle | internal/backend/bls12-381/plonk/prove.go:617-628 | shifting n times gives back Z, so the shift is a cyclic permutation of the domain |
| Cosets.OddPowers | internal/backend/bls12-381/plonk/prove.go:473-479 | the table holds g, g³, g⁵ and g⁷ |
| Cosets.IdentityTable | internal/backend/bls12-381/plonk/prove.go:481-491 | entry 4i+j is ω^i·g^(2j+1), the i-th point of the j-th odd coset |
| Cosets.ScaleVector | internal/backend/bls12-381/plonk/prove.go:493-498 | every entry is multiplied by the shifter |
| Cosets.EvalIDCosets | internal/backend/bls12-381/plonk/prove.go:466-501 | id, uid and uuid list the 4n interleaved coset points, and those points times each shifter |
| Cosets.Interleave | internal/backend/bls12-381/plonk/prove.go:608-613 | entry k of the result is entry k/4 of evaluation vector k mod 4 |
| Cosets.StrideInterleaved | internal/backend/bls12-381/plonk/prove.go:608-613 | reading every 4th entry from offset j gives back evaluation vector j, so interleaving loses nothing |
| Cosets.StridesDetermine | internal/backend/bls12-381/plonk/prove.go:608-613 | two 4n vectors with the same four strides are equal, so the interleaved layout is unique |
| Cosets.EvaluateCosets | internal/backend/bls12-381/plonk/prove.go:585-614 | entry k is entry k/4 of the FFT, with coset shift 2·(k mod 4)+1, of the polynomial's bit-reversed length-n copy. So the four odd cosets appear interleaved, one point of each in turn |
| Terms.GateTermIsGateEquation | internal/backend/bls12-381/plonk/prove.go:419-460 | the way the prover assembles the gate term, qr·r, qo·o, (ql+qm·r)·l and qk summed in that order, equals the PLONK gate equation ql·l+qr·r+qm·l·r+qo·o+qk |
| Terms.MulPointwise | internal/backend/bls12-381/plonk/prove.go:419-435 | the product is taken pointwise over the evaluation points |
| Terms.LinearPart | internal/backend/bls12-381/plonk/prove.go:437-446 | every entry is (ql+qm·r)·l |
| Terms.SumTerms | internal/backend/bls12-381/plonk/prove.go:455-460 | every entry is the sum of the four partial terms |
| Terms.EvalConstraints | internal/backend/bls12-381/plonk/prove.go:408-463 | entry k is the gate term built from the selector values and wire values at coset point k |
| Terms.OrderingTermVanishes | internal/backend/bls12-381/plonk/prove.go:526-545 | on the domain, when Z follows the accumulator recurrence and the denominator at point i is non-zero, the ordering term Z(uX)·σ-product − Z(X)·identity-product is zero at i. At the last point Z(uX) wraps around to Z(1) = 1, so there the term vanishes when Z(1) = 1 and the grand product of the accumulator is 1 |
| Terms.ZIsAccumulator | internal/backend/bls12-381/plonk/prove.go:357-404 | a vector that starts at 1 and follows the recurrence of computeZ equals, entry by entry, the accumulator's partial products |
| Terms.EvalConstraintOrdering | internal/backend/bls12-381/plonk/prove.go:508-548 | entry k is the ordering term at coset point k, using the identity points, the shifted points and S1..S3 evaluated there |
| Terms.LagrangeOne | internal/backend/bls12-381/plonk/prove.go:557-559 | L1 in Lagrange form is 1 at the first slot and 0 everywhere else |
| Terms.StartsAtOneVanishes | internal/backend/bls12-381/plonk/prove.go:570-573 | the starts-at-one term (Z−1)·L1 vanishes on every slot of the domain exactly when Z(1)=1 |
| Terms.EvalStartsAtOne | internal/backend/bls12-381/plonk/prove.go:554-576 | entry k is (Z−1)·L1 at coset point k, where L1 is interpolated from its Lagrange form |
| Quotient.VanishingInverses | internal/backend/bls12-381/plonk/prove.go:642-657 | the table holds the inverse of X^n−1 on each of the four odd cosets |
| Quotient.VanishingOnCoset | internal/backend/bls12-381/plonk/prove.go:641-657 | when ω^n = 1, X^n−1 at interleaved slot k (the point ω^(k/4)·g^(2(k mod 4)+1)) equals its value at the coset offset g^(2(k mod 4)+1). So one entry per coset in the table is enough |
| Quotient.QuotientAtCosetPoint | internal/backend/bls12-381/plonk/prove.go:659-672 | the quotient at slot k is the gate, ordering and starts-at-one combination divided by X^n−1 at the actual coset point k |
| Quotient.QuotientDivides | internal/backend/bls12-381/plonk/prove.go:664-672 | on a point where X^n−1 is non-zero, the value h satisfies h·(X^n−1) = constraints + α·ordering + α²·startsAtOne |
| Quotient.QuotientLoop | internal/backend/bls12-381/plonk/prove.go:664-672 | the loop computes the quotient value at every coset point |
| Quotient.Split | internal/backend/bls12-381/plonk/prove.go:678-680 | h1, h2 and h3 are the consecutive n-coefficient blocks of h |
| Quotient.SplitCovers | internal/backend/bls12-381/plonk/prove.go:678-680 | h1, h2 and h3 concatenate back to the first 3n coefficients of h |
| Quotient.ComputeH | internal/backend/bls12-381/plonk/prove.go:637-684 | h1‖h2‖h3 are the first 3n coefficients of the quotient, brought to canonical form on the big domain |
| Linearization.FoldHCoefficients | internal/backend/bls12-381/plonk/prove.go:266-271 | coefficient i of the folded h is h1[i] + ζ^n·h2[i] + ζ^(2n)·h3[i] |
| Linearization.FoldHEval | internal/backend/bls12-381/plonk/prove.go:266-271 | the folded h evaluated at ζ equals h evaluated at ζ, so the batch opening shows h(ζ) |
| Linearization.FoldDigestsCommits | internal/backend/bls12-381/plonk/prove.go:254-264 | for a homomorphic commitment, the folded digest is the commitment to the folded h |
| Linearization.LagrangeOneScalar | internal/backend/bls12-381/plonk/prove.go:737-749 | the L1 scalar is 0 when ζ=1 and when n is 0 in the field, following the zero-inverse convention |
| Linearization.GeometricSumClosed | internal/backend/bls12-381/plonk/prove.go:740-749 | (ζ−1)·(1+ζ+…+ζ^(n−1)) = ζ^n−1, the identity behind the L1 formula |
| Linearization.LagrangeOneScalarIsL1 | internal/backend/bls12-381/plonk/prove.go:737-749 | otherwise the scalar is α²·L1(ζ), where L1(ζ) = (1+ζ+…+ζ^(n−1))/n |
| Linearization.SelectorsAreGateEquation | internal/backend/bls12-381/plonk/prove.go:694-711 | the selector part of the linearized polynomial is the gate equation with the wire values at ζ |
| Linearization.PermutationPart | internal/backend/bls12-381/plonk/prove.go:713-734 | the permutation part is α·(σ-factor·S3 − identity-product·Z) |
| Linearization.LinearizedCoefficients | internal/backend/bls12-381/plonk/prove.go:691-757 | each coefficient of the linearized polynomial is the gate equation, plus α times the permutation term, plus the L1 scalar times Z. The wire values come from ζ and Z(uζ) from its opening |
| Transcript.Bind | internal/backend/bls12-381/plonk/prove.go:112-120 | a bind succeeds exactly when the slot has no derived challenge yet; it appends the value and keeps the derived challenges |
| Transcript.ComputeChallenge | internal/backend/bls12-381/plonk/prove.go:121-126 | deriving fails exactly when the slot was never bound and has no challenge. A second derivation returns the stored challenge. A first derivation hashes the slot with the inputs bound to it and to earlier slots, then records the result |
| Transcript.LaterBindIgnored | internal/backend/bls12-381/plonk/prove.go:183-191 | a value bound to a later slot does not change an earlier slot's challenge |
| Transcript.BindExtends | internal/backend/bls12-381/plonk/prove.go:208-222 | a value bound to the slot itself or an earlier one is appended to the challenge's inputs |
| Transcript.DerivedIsFinal | internal/backend/bls12-381/plonk/prove.go:121-126 | once derived, a slot refuses further bindings and keeps its challenge |
| Transcript.BindOrderMatters | internal/backend/bls12-381/plonk/prove.go:112-120 | binding x then y gives the challenge inputs [x, y], and the other order gives [y, x]. These differ exactly when x ≠ y, and then the two challenges differ whenever the hash separates the two input lists |
| Transcript.InputsInOrder | internal/backend/bls12-381/plonk/prove.go:112-222 | when nothing is bound to a later slot, the challenge's inputs are exactly the bound values, in order |
| Prover.ScheduleBindsBeforeDeriving | internal/backend/bls12-381/plonk/prove.go:103-222 | no slot is bound after its challenge was derived, and every bound digest was committed earlier in the schedule |
| Prover.CommitEach | internal/backend/bls12-381/plonk/prove.go:103-111 | commitments are made in order until the first failure. That failure's error is returned, and every digest before it is the commitment of its polynomial |
| Prover.BindAndDerive | internal/backend/bls12-381/plonk/prove.go:112-126 | binding the digests to a fresh slot and deriving its challenge appends the bindings and stores hash(slot, inputs) |
| Prover.DeriveGamma | internal/backend/bls12-381/plonk/prove.go:112-126 | γ is the hash of the three wire digests, in order |
| Prover.DeriveAlpha | internal/backend/bls12-381/plonk/prove.go:183-191 | α is the hash of the wire digests followed by the Z digest |
| Prover.DeriveZeta | internal/backend/bls12-381/plonk/prove.go:208-222 | ζ is the hash of the wire digests, the Z digest and the three h digests |
| Prover.Wires | internal/backend/bls12-381/plonk/prove.go:73-100 | the canonical L, R and O are the inverse FFTs of the Lagrange-form wire vectors |
| Prover.Accumulate | internal/backend/bls12-381/plonk/prove.go:128-163 | the committed Z is the canonical form of the accumulator of computeZ over the Lagrange-form wires, σ, the shifters, ω and γ. This is the Z of `CommittedPolys` |
| Prover.Arithmetize | internal/backend/bls12-381/plonk/prove.go:139-175 | the three coset-term vectors are the gate term (qk completed by the public witness), the ordering term of Z and Z(uX), and the starts-at-one term of Z, each on the 4n coset points of the wires in canonical form. Z(uX) comes from Z's Lagrange form rotated one slot |
| Prover.Open | internal/backend/bls12-381/plonk/prove.go:224-303 | Z is opened at ζ·ω. The batch opening at ζ covers, in order, folded h, the linearized polynomial, L, R, O, S1 and S2, with digests: folded h digest, the linearized commitment (the zero digest if that commitment failed), L, R, O, S1, S2 |
| Prover.Finish | internal/backend/bls12-381/plonk/prove.go:207-305 | once h1..h3 are committed, ζ is the hash of all seven digests in order. The proof carries those digests, and its two openings are those of `OpeningsAre` at that ζ |
| Prover.ProveAfterAlpha | internal/backend/bls12-381/plonk/prove.go:196-305 | after α, h1, h2, h3 are committed in order. On failure the failing h commitment's error is returned with the digests before it, each committing its polynomial. On success the proof's openings are over the seven polynomials, and the transcript holds the seven bindings |
| Prover.ProveAfterTerms | internal/backend/bls12-381/plonk/prove.go:177-305 | Z is committed before anything that depends on α. Its failure ends the run with only the wire digests. Otherwise α is the hash of the wire and Z digests, and the h blocks are the quotient blocks of the terms over that α |
| Prover.CommittedBeforeChallenges | internal/backend/bls12-381/plonk/prove.go:102-222 | the polynomial committed at position i depends only on the digests before i: the wires on none, Z on the wire digests through γ, the h blocks also on Z's digest through α |
| Prover.ProveAfterGamma | internal/backend/bls12-381/plonk/prove.go:128-305 | after γ, the digests commit, in order, Z over γ and the quotient blocks over γ and α, after the wires. These are the polynomials of `CommittedPolys` for the challenges the digests derive. A failure is the next commitment's failure, with its error |
| Prover.ProveSolved | internal/backend/bls12-381/plonk/prove.go:72-305 | once solved, every digest commits the polynomial of `CommittedPolys` at its position, for the challenges derived from the digests before it. A failure is the next commitment's, at its commit step in the schedule. Success returns the proof, whose openings are over those polynomials, and the full binding log |
| Prover.Prove | internal/backend/bls12-381/plonk/prove.go:58-307 | the trace runs the schedule in order and stops at the first failure, whose error is returned. Only the solver or a commitment can fail. After a successful solve, each digest commits the polynomial of its position, and a failure is the next commitment in `CommitOrder`. A successful proof's γ, α and ζ are hashes of exactly the digests committed before each, and its openings are over the committed polynomials |
| PowerOfTwo.ClearLowestBit | backend/plonk/assert.go:136 | n & (n−1) is 0 exactly when n is a power of two, for n ≥ 1 |
| PowerOfTwo.Doubling | backend/plonk/assert.go:139-141 | doubling from 1 stops at the least power of two p ≥ n, with p < 2n |
| PowerOfTwo.NextPowerOfTwo | backend/plonk/assert.go:133-143 | 0 and powers of two are returned unchanged. Otherwise, up to 2^62, the result is the least power of two above n. Above 2^62 the loop reaches 2^63, and `int(p)` wraps it to −2^63 |
| Srs.NewKzgSrsSize | backend/plonk/assert.go:145-164 | the SRS size is a power of two at least the number of public, constraint and assertion slots, and less than twice that number |

## Left out

- FFT, bit reversal, KZG commitments and openings, and group arithmetic are Backend functions. They belong to gnark-crypto, which is not part of this model. Only the order and arguments of the calls are modelled.
- The Fiat-Shamir package (SHA-256, and reducing the hash with `SetBytes`) is not part of this model. Its interface is stated as the `Transcript` module, with an abstract hash.
- The challenge-input rule is an assumption: a challenge hashes every value bound to its slot or to an earlier slot. The transcript implementation is not in the model, so this rule was not read off its code.
- Go's "unknown challenge" error and the transcript's bind and derive errors at prove.go:112-124, 183-189 and 208-220 cannot arise with the fixed slot names and the fixed schedule. `Prover.BindAndDerive`'s preconditions prove them unreachable, so they are not live branches.
- Goroutines and channels (prove.go:88-100, 128-147, 419-435) are run sequentially. They only overlap independent computations.
- The errors of `Open` and `BatchOpen` (prove.go:227, 281-303) are ignored in the source. In the model those calls return values, not results. A failed commitment of the linearized polynomial (prove.go:278) falls back to the zero digest, as `Prover.Open` states.
- Montgomery representation, `big.Int` and fixed-width limbs are not modelled; field elements are integers modulo P.
- That P is prime is taken as a hypothesis (`IsPrime(P)`). It is not proved.
- `Eval` evaluates the coefficient sequence by Horner's rule; the empty polynomial evaluates to 0.
- PowerOfTwo.NextPowerOfTwo: a negative argument is excluded (the `uint64(_n)` reinterpretation of negatives is not modelled). Sizes are never negative.
- Srs.NewKzgSrsSize: only the size is modelled. The curve switch and the SRS generation with fixed randomness are left out, and every branch computes the same size.
- Test helpers and the other curves' copies of the prover are left out. They repeat this code for other fields.
