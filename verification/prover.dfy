/**
 * `Prove`: the PLONK prover of Gabizon, Williamson and Ciobotaru (IACR
 * ePrint 2019/953) as one sequential pass over the stages A to I. The
 * goroutines of the source only overlap independent work and are run in
 * order here.
 */
module Prover {
  import opened Wrappers
  import opened Field
  import opened Polynomials
  import opened WireLayout
  import opened Primitives
  import opened Keys
  import opened Cosets
  import opened Permutation
  import opened Terms
  import opened Quotient
  import opened Linearization
  import T = Transcript

  /** `Proof`: the commitments to L, R, O, Z, h1..h3, the batched opening at ζ and the opening of Z at ζ·ω. */
  datatype Proof<G> = Proof(
    lro: seq<G>, z: G, h: seq<G>,
    batchedProof: BatchOpeningProof<G>, zShiftedOpening: OpeningProof<G>)

  /** The polynomials `Prove` commits to before the challenges it derives. */
  datatype Name = WireL | WireR | WireO | PermZ | QuotH1 | QuotH2 | QuotH3

  /** The steps of `Prove` that touch the outside world: the solver, commitments and the transcript. */
  datatype Step = SolveStep | CommitStep(name: Name) | BindStep(slot: T.Slot, name: Name) | DeriveStep(slot: T.Slot)

  /** A step that completed, or the step that failed and the error it returned. */
  datatype Event = Done(step: Step) | Failed(step: Step, error: Error)

  /** The order in which `Prove` performs its fallible steps. */
  const Schedule: seq<Step> := [
    SolveStep,
    CommitStep(WireL), CommitStep(WireR), CommitStep(WireO),
    BindStep(T.Gamma, WireL), BindStep(T.Gamma, WireR), BindStep(T.Gamma, WireO), DeriveStep(T.Gamma),
    CommitStep(PermZ), BindStep(T.Alpha, PermZ), DeriveStep(T.Alpha),
    CommitStep(QuotH1), CommitStep(QuotH2), CommitStep(QuotH3),
    BindStep(T.Zeta, QuotH1), BindStep(T.Zeta, QuotH2), BindStep(T.Zeta, QuotH3), DeriveStep(T.Zeta)]

  /** The first k steps of the schedule, all completed. */
  function Completed(k: nat): (trace: seq<Event>)
    requires k <= |Schedule|
    ensures |trace| == k
  {
    seq(k, i requires 0 <= i < k => Done(Schedule[i]))
  }

  /** Every value bound to a slot is committed before it is bound, and bound before the slot's challenge is derived. */
  lemma ScheduleBindsBeforeDeriving()
    ensures forall i, j :: 0 <= i < j < |Schedule| && Schedule[j].BindStep? && Schedule[i].DeriveStep? ==>
      Schedule[i].slot != Schedule[j].slot
    ensures forall j :: 0 <= j < |Schedule| && Schedule[j].BindStep? ==>
      exists i :: 0 <= i < j && Schedule[i] == CommitStep(Schedule[j].name)
  {
    assert Schedule[4].BindStep? && Schedule[1] == CommitStep(WireL);
    assert Schedule[5].BindStep? && Schedule[2] == CommitStep(WireR);
    assert Schedule[6].BindStep? && Schedule[3] == CommitStep(WireO);
    assert Schedule[9].BindStep? && Schedule[8] == CommitStep(PermZ);
    assert Schedule[14].BindStep? && Schedule[11] == CommitStep(QuotH1);
    assert Schedule[15].BindStep? && Schedule[12] == CommitStep(QuotH2);
    assert Schedule[16].BindStep? && Schedule[13] == CommitStep(QuotH3);
  }

  /** What the prover needs of the proving key and the instance (Go indexes out of range otherwise). */
  predicate WellFormed<G>(pk: ProvingKey<G>, spr: SparseR1CS)
  {
    var n := pk.cardinality;
    n >= 1 && NbSlots(spr) <= n &&
    3 * n <= pk.hCardinality <= 4 * n &&
    |pk.ls1| >= n - 1 && |pk.ls2| >= n - 1 && |pk.ls3| >= n - 1 &&
    spr.nbPublicVariables <= |pk.lqk|
  }

  /**
   * What the prover relies on from `spr.Solve`: a solution covers the
   * public variables and every variable a wire reads, and is non-empty
   * when there are padding slots to fill with solution[0].
   */
  ghost predicate SolverContract<G>(b: Backend<G>, spr: SparseR1CS, n: nat)
  {
    forall w :: b.solve(spr, w).Success? ==>
      var v := b.solve(spr, w).value;
      spr.nbPublicVariables <= |v| && ReadsWithin(spr, |v|) && (NbSlots(spr) < n ==> |v| > 0)
  }

  /** The order in which `Prove` commits: one name per digest of the proof. */
  const CommitOrder: seq<Name> := [WireL, WireR, WireO, PermZ, QuotH1, QuotH2, QuotH3]

  /** The inputs of `computeZ`: the Lagrange-form wires and σ, the shifters, ω and γ. */
  function ZInputs<G>(pk: ProvingKey<G>, ll: seq<Fe>, lr: seq<Fe>, lo: seq<Fe>, gamma: Fe): AccumulatorInputs
  {
    AccumulatorInputs(ll, lr, lo, pk.ls1, pk.ls2, pk.ls3, pk.vk.shifter1, pk.vk.shifter2, pk.generator, gamma)
  }

  /** Lagrange-form wire vectors of the domain's size. */
  predicate DomainWires<G>(pk: ProvingKey<G>, ll: seq<Fe>, lr: seq<Fe>, lo: seq<Fe>)
  {
    |ll| == pk.cardinality && |lr| == pk.cardinality && |lo| == pk.cardinality
  }

  /** Z in canonical form: the inverse FFT of the accumulator over γ. */
  function ZPoly<G>(b: Backend<G>, spr: SparseR1CS, pk: ProvingKey<G>, ll: seq<Fe>, lr: seq<Fe>, lo: seq<Fe>, gamma: Fe)
    : (z: seq<Fe>)
    requires WellFormed(pk, spr) && DomainWires(pk, ll, lr, lo)
    ensures |z| == pk.cardinality
  {
    ToCanonical(b, DomainNum, AccumulatorVector(ZInputs(pk, ll, lr, lo, gamma), pk.cardinality), DIF, 0)
  }

  /** The gate term on the 4n coset points, with qk completed by the public witness. */
  function GateTerms<G>(b: Backend<G>, spr: SparseR1CS, pk: ProvingKey<G>, fullWitness: seq<Fe>,
                        ll: seq<Fe>, lr: seq<Fe>, lo: seq<Fe>): (v: seq<Fe>)
    requires WellFormed(pk, spr) && DomainWires(pk, ll, lr, lo)
    requires spr.nbPublicVariables <= |fullWitness|
    ensures |v| == 4 * pk.cardinality
  {
    var n := pk.cardinality;
    var qk := ToCanonical(b, DomainNum, PublicInputSelector(pk.lqk, fullWitness, spr.nbPublicVariables, n), DIF, 0);
    ConstraintsOnCosets(b, pk.ql, pk.qr, pk.qm, pk.qo, qk,
                        CosetVector(b, ToCanonical(b, DomainNum, ll, DIF, 0), n),
                        CosetVector(b, ToCanonical(b, DomainNum, lr, DIF, 0), n),
                        CosetVector(b, ToCanonical(b, DomainNum, lo, DIF, 0), n), n)
  }

  /** The ordering term on the 4n coset points, from Z and its rotation Z(uX). */
  function OrderingTerms<G>(b: Backend<G>, spr: SparseR1CS, pk: ProvingKey<G>,
                            ll: seq<Fe>, lr: seq<Fe>, lo: seq<Fe>, gamma: Fe): (v: seq<Fe>)
    requires WellFormed(pk, spr) && DomainWires(pk, ll, lr, lo)
    ensures |v| == 4 * pk.cardinality
  {
    var n := pk.cardinality;
    var zl := AccumulatorVector(ZInputs(pk, ll, lr, lo, gamma), n);
    OrderingOnCosets(b, pk.cs1, pk.cs2, pk.cs3, pk.generator, pk.finerGenerator, pk.vk.shifter1, pk.vk.shifter2, n,
                     CosetVector(b, ToCanonical(b, DomainNum, zl, DIF, 0), n),
                     CosetVector(b, ToCanonical(b, DomainNum, ShiftZ(zl), DIF, 0), n),
                     CosetVector(b, ToCanonical(b, DomainNum, ll, DIF, 0), n),
                     CosetVector(b, ToCanonical(b, DomainNum, lr, DIF, 0), n),
                     CosetVector(b, ToCanonical(b, DomainNum, lo, DIF, 0), n), gamma)
  }

  /** The starts-at-one term on the 4n coset points. */
  function StartTerms<G>(b: Backend<G>, spr: SparseR1CS, pk: ProvingKey<G>,
                         ll: seq<Fe>, lr: seq<Fe>, lo: seq<Fe>, gamma: Fe): (v: seq<Fe>)
    requires WellFormed(pk, spr) && DomainWires(pk, ll, lr, lo)
    ensures |v| == 4 * pk.cardinality
  {
    StartsAtOneOnCosets(b, pk.cardinality, CosetVector(b, ZPoly(b, spr, pk, ll, lr, lo, gamma), pk.cardinality))
  }

  /**
   * h1, h2, h3 over α: the quotient of the gate, ordering and starts-at-one
   * terms on the cosets, moved to canonical form on the big domain and
   * split in three blocks of n coefficients.
   */
  function QuotientBlocks<G>(b: Backend<G>, pk: ProvingKey<G>, ind: seq<Fe>, ord: seq<Fe>, start: seq<Fe>, alpha: Fe)
    : (hs: seq<seq<Fe>>)
    requires 3 * pk.cardinality <= pk.hCardinality
    requires |ind| >= pk.hCardinality && |ord| >= pk.hCardinality && |start| >= pk.hCardinality
    ensures |hs| == 3
  {
    var h := ToCanonical(b, DomainH, QuotientOnCosets(ind, ord, start, alpha, pk.finerGenerator, pk.cardinality,
                                                      pk.hCardinality), DIF, 1);
    var blocks := Split(h, pk.cardinality);
    [blocks.0, blocks.1, blocks.2]
  }

  /**
   * The seven polynomials `Prove` commits to, in `CommitOrder`, for the
   * challenges γ and α: L, R, O in canonical form, Z over γ, and the three
   * blocks of the quotient of the terms over γ and α.
   */
  function CommittedPolys<G>(b: Backend<G>, spr: SparseR1CS, pk: ProvingKey<G>, fullWitness: seq<Fe>,
                             solution: seq<Fe>, gamma: Fe, alpha: Fe): (ps: seq<seq<Fe>>)
    requires WellFormed(pk, spr) && Layable(spr, pk.cardinality, solution)
    requires spr.nbPublicVariables <= |fullWitness|
    ensures |ps| == |CommitOrder|
  {
    var n := pk.cardinality;
    var ll, lr, lo := WireVector(spr, n, solution, Left), WireVector(spr, n, solution, Right),
                      WireVector(spr, n, solution, Output);
    [ToCanonical(b, DomainNum, ll, DIF, 0), ToCanonical(b, DomainNum, lr, DIF, 0), ToCanonical(b, DomainNum, lo, DIF, 0),
     ZPoly(b, spr, pk, ll, lr, lo, gamma)] +
    QuotientBlocks(b, pk, GateTerms(b, spr, pk, fullWitness, ll, lr, lo), OrderingTerms(b, spr, pk, ll, lr, lo, gamma),
                   StartTerms(b, spr, pk, ll, lr, lo, gamma), alpha)
  }

  /**
   * The challenge of slot s once the first m digests exist: their hash.
   * Before that no polynomial committed so far depends on it, and it is
   * taken as 0.
   */
  function ChallengeAfter<G>(b: Backend<G>, s: T.Slot, before: seq<G>, m: nat): Fe
  {
    if |before| >= m then b.hash(s, before[..m]) else 0
  }

  /**
   * What a run that committed `digests` and ended with `result` shows of
   * the seven polynomials `ps` of `CommitOrder`. Each digest commits the
   * polynomial at its position. On failure the polynomial at the next
   * position is the commitment that failed, with the error returned. On
   * success the digests are the proof's and its openings are those of
   * `OpeningsAre` on `ps`. The transcript then holds the seven digests,
   * bound in the order L, R, O to γ, Z to α and h1, h2, h3 to ζ, each
   * challenge the hash of everything bound up to its slot.
   */
  ghost predicate Proved<G>(b: Backend<G>, pk: ProvingKey<G>, ps: seq<seq<Fe>>, result: Result<Proof<G>>,
                            fs: T.Transcript<G>, digests: seq<G>)
    requires |ps| == |CommitOrder|
  {
    |digests| <= |CommitOrder| &&
    (forall i :: 0 <= i < |digests| ==> b.commit(ps[i]) == Success(digests[i])) &&
    (result.Failure? ==> |digests| < |CommitOrder| && b.commit(ps[|digests|]) == Failure(result.error)) &&
    (result.Success? ==>
      var pr := result.value;
      |pr.lro| == 3 && |pr.h| == 3 && digests == pr.lro + [pr.z] + pr.h &&
      OpeningsAre(b, pk, pr.zShiftedOpening, pr.batchedProof, ps[0], ps[1], ps[2], ps[3], ps[4], ps[5], ps[6],
                  pr.lro, pr.h, b.hash(T.Alpha, pr.lro + [pr.z]), b.hash(T.Gamma, pr.lro), b.hash(T.Zeta, digests)) &&
      fs.bindings == [(T.Gamma, pr.lro[0]), (T.Gamma, pr.lro[1]), (T.Gamma, pr.lro[2]), (T.Alpha, pr.z),
                      (T.Zeta, pr.h[0]), (T.Zeta, pr.h[1]), (T.Zeta, pr.h[2])] &&
      fs.derived == map[T.Gamma := b.hash(T.Gamma, pr.lro),
                        T.Alpha := b.hash(T.Alpha, pr.lro + [pr.z]),
                        T.Zeta := b.hash(T.Zeta, digests)])
  }

  /**
   * What `Prove` promises once the solver has returned `solution`: `Proved`
   * of the seven polynomials of `CommittedPolys`, over the γ and α that the
   * digests themselves derive. A digest at position i only commits a
   * polynomial that depends on challenges derived from digests before i.
   */
  ghost predicate ProvedFrom<G>(b: Backend<G>, spr: SparseR1CS, pk: ProvingKey<G>, fullWitness: seq<Fe>,
                                solution: seq<Fe>, result: Result<Proof<G>>, fs: T.Transcript<G>, digests: seq<G>)
    requires WellFormed(pk, spr) && Layable(spr, pk.cardinality, solution)
    requires spr.nbPublicVariables <= |fullWitness|
  {
    Proved(b, pk, CommittedPolys(b, spr, pk, fullWitness, solution,
                                 ChallengeAfter(b, T.Gamma, digests, 3), ChallengeAfter(b, T.Alpha, digests, 4)),
           result, fs, digests)
  }

  /**
   * The polynomial at position i depends only on the digests before i:
   * the wires on none of them, Z on the three wire digests through γ, the
   * h blocks on the wire and Z digests through γ and α. So `ProvedFrom`
   * never names a polynomial by a challenge derived after it is committed.
   */
  lemma CommittedBeforeChallenges<G>(b: Backend<G>, spr: SparseR1CS, pk: ProvingKey<G>, fullWitness: seq<Fe>,
                                     solution: seq<Fe>, digests: seq<G>, i: nat)
    requires WellFormed(pk, spr) && Layable(spr, pk.cardinality, solution)
    requires spr.nbPublicVariables <= |fullWitness|
    requires i <= |digests| && i < |CommitOrder|
    ensures CommittedPolys(b, spr, pk, fullWitness, solution,
                           ChallengeAfter(b, T.Gamma, digests, 3), ChallengeAfter(b, T.Alpha, digests, 4))[i]
         == CommittedPolys(b, spr, pk, fullWitness, solution,
                           ChallengeAfter(b, T.Gamma, digests[..i], 3), ChallengeAfter(b, T.Alpha, digests[..i], 4))[i]
  {
    var before := digests[..i];
    if i >= 4 {
      assert before[..3] == digests[..3] && before[..4] == digests[..4];
    } else if i == 3 {
      assert before[..3] == digests[..3];
    }
  }

  /**
   * `Prove`. A failing solve or commitment aborts with that error and no
   * proof; the binds and challenge derivations cannot fail, because every
   * slot is bound before its challenge is derived and never after.
   * `digests` are the commitments that succeeded, in order, each to the
   * polynomial of `CommittedPolys` at its position (`ProvedFrom`). On
   * failure after the solve, the failing step is the next commitment of
   * `CommitOrder`.
   */
  method Prove<G>(b: Backend<G>, spr: SparseR1CS, pk: ProvingKey<G>, fullWitness: seq<Fe>)
    returns (result: Result<Proof<G>>, trace: seq<Event>, fs: T.Transcript<G>, digests: seq<G>)
    requires WellFormed(pk, spr)
    requires spr.nbPublicVariables <= |fullWitness|
    requires SolverContract(b, spr, pk.cardinality)
    ensures 1 <= |trace| <= |Schedule|
    ensures result.Success? ==> trace == Completed(|Schedule|)
    ensures result.Failure? ==>
      var k := |trace| - 1;
      trace == Completed(k) + [Failed(Schedule[k], result.error)] &&
      (Schedule[k] == SolveStep || Schedule[k].CommitStep?)
    ensures b.solve(spr, fullWitness).Failure? ==>
      result == Failure(b.solve(spr, fullWitness).error) && trace == [Failed(SolveStep, b.solve(spr, fullWitness).error)] &&
      digests == []
    ensures b.solve(spr, fullWitness).Success? ==>
      trace[0] == Done(SolveStep) && ProvedFrom(b, spr, pk, fullWitness, b.solve(spr, fullWitness).value, result, fs, digests)
    ensures b.solve(spr, fullWitness).Success? && result.Failure? ==>
      |digests| < |CommitOrder| && Schedule[|trace| - 1] == CommitStep(CommitOrder[|digests|])
  {
    var solved := b.solve(spr, fullWitness);
    if solved.Failure? {
      return Failure(solved.error), [Failed(SolveStep, solved.error)], T.NewTranscript(), [];
    }
    var k;
    result, k, fs, digests := ProveSolved(b, spr, pk, fullWitness, solved.value);
    trace := TraceOf(result, k);
  }

  /** The trace of a run that ends with `result`: the whole schedule, or its first k steps and then step k failing. */
  function TraceOf<G>(result: Result<Proof<G>>, k: nat): (trace: seq<Event>)
    requires 1 <= k < |Schedule|
    ensures |trace| > k && trace[0] == Done(SolveStep)
  {
    if result.Failure? then Completed(k) + [Failed(Schedule[k], result.error)] else Completed(|Schedule|)
  }

  /**
   * `Prove` after a successful solve. Returns the proof, or the error and
   * the index in the schedule of the commitment that failed, with the
   * digests of the commitments that succeeded before it.
   */
  method ProveSolved<G>(b: Backend<G>, spr: SparseR1CS, pk: ProvingKey<G>, fullWitness: seq<Fe>, solution: seq<Fe>)
    returns (result: Result<Proof<G>>, k: nat, fs: T.Transcript<G>, digests: seq<G>)
    requires WellFormed(pk, spr)
    requires spr.nbPublicVariables <= |fullWitness|
    requires Layable(spr, pk.cardinality, solution)
    ensures 1 <= k < |Schedule|
    ensures ProvedFrom(b, spr, pk, fullWitness, solution, result, fs, digests)
    ensures result.Failure? ==> |digests| < |CommitOrder| && Schedule[k] == CommitStep(CommitOrder[|digests|])
  {
    fs := T.NewTranscript();
    var ll, lr, lo, cl, cr, co := Wires(b, spr, pk, solution);

    // B: commit L, R, O and derive γ.
    var lro, err := CommitEach(b, [cl, cr, co]);
    if err.Some? {
      assert Schedule[1 + |lro|] == CommitStep(CommitOrder[|lro|]);
      return Failure(err.value), 1 + |lro|, fs, lro;
    }
    var gamma;
    fs, gamma := DeriveGamma(b, lro);
    result, k, fs, digests := ProveAfterGamma(b, spr, pk, fullWitness, solution, ll, lr, lo, cl, cr, co, lro, fs, gamma);
  }

  /**
   * Stages C to I, after L, R, O are committed and bound and γ derived.
   * Returns the proof, or the error and the index in the schedule of the
   * commitment that failed, with the digests of the commitments that
   * succeeded, the wire digests first.
   */
  method ProveAfterGamma<G>(b: Backend<G>, spr: SparseR1CS, pk: ProvingKey<G>, fullWitness: seq<Fe>, solution: seq<Fe>,
                            ll: seq<Fe>, lr: seq<Fe>, lo: seq<Fe>, cl: seq<Fe>, cr: seq<Fe>, co: seq<Fe>,
                            lro: seq<G>, t: T.Transcript<G>, gamma: Fe)
    returns (result: Result<Proof<G>>, k: nat, fs: T.Transcript<G>, digests: seq<G>)
    requires WellFormed(pk, spr)
    requires spr.nbPublicVariables <= |fullWitness|
    requires Layable(spr, pk.cardinality, solution)
    requires ll == WireVector(spr, pk.cardinality, solution, Left)
    requires lr == WireVector(spr, pk.cardinality, solution, Right)
    requires lo == WireVector(spr, pk.cardinality, solution, Output)
    requires cl == ToCanonical(b, DomainNum, ll, DIF, 0)
    requires cr == ToCanonical(b, DomainNum, lr, DIF, 0)
    requires co == ToCanonical(b, DomainNum, lo, DIF, 0)
    requires |lro| == 3
    requires forall i :: 0 <= i < 3 ==> b.commit([cl, cr, co][i]) == Success(lro[i])
    requires gamma == b.hash(T.Gamma, lro)
    requires t.bindings == [(T.Gamma, lro[0]), (T.Gamma, lro[1]), (T.Gamma, lro[2])]
    requires t.derived == map[T.Gamma := gamma]
    ensures 8 <= k < |Schedule|
    ensures 3 <= |digests| && digests[..3] == lro
    ensures ProvedFrom(b, spr, pk, fullWitness, solution, result, fs, digests)
    ensures result.Failure? ==> |digests| < |CommitOrder| && Schedule[k] == CommitStep(CommitOrder[|digests|])
  {
    // C: the accumulator Z.
    var zl, z := Accumulate(b, spr, pk, ll, lr, lo, gamma);
    // D and E: the three terms on the cosets.
    var ind, ord, start := Arithmetize(b, spr, pk, fullWitness, ll, lr, lo, cl, cr, co, zl, z, gamma);
    // F to I.
    result, k, fs, digests := ProveAfterTerms(b, pk, cl, cr, co, z, ind, ord, start, lro, t, gamma);
    assert ChallengeAfter(b, T.Gamma, digests, 3) == gamma;
  }

  /**
   * Stages F to I, given the wires and Z in canonical form and the three
   * terms on the cosets: Z committed and bound and α derived, then the
   * quotient, its commitments and the openings. The seven polynomials are
   * the wires, Z and `QuotientBlocks` over the α the digests derive.
   */
  method ProveAfterTerms<G>(b: Backend<G>, pk: ProvingKey<G>, cl: seq<Fe>, cr: seq<Fe>, co: seq<Fe>, z: seq<Fe>,
                            ind: seq<Fe>, ord: seq<Fe>, start: seq<Fe>, lro: seq<G>, t: T.Transcript<G>, gamma: Fe)
    returns (result: Result<Proof<G>>, k: nat, fs: T.Transcript<G>, digests: seq<G>)
    requires 3 * pk.cardinality <= pk.hCardinality
    requires |ind| >= pk.hCardinality && |ord| >= pk.hCardinality && |start| >= pk.hCardinality
    requires |lro| == 3
    requires forall i :: 0 <= i < 3 ==> b.commit([cl, cr, co][i]) == Success(lro[i])
    requires gamma == b.hash(T.Gamma, lro)
    requires t.bindings == [(T.Gamma, lro[0]), (T.Gamma, lro[1]), (T.Gamma, lro[2])]
    requires t.derived == map[T.Gamma := gamma]
    ensures 8 <= k < |Schedule|
    ensures 3 <= |digests| && digests[..3] == lro
    ensures Proved(b, pk, [cl, cr, co, z] + QuotientBlocks(b, pk, ind, ord, start, ChallengeAfter(b, T.Alpha, digests, 4)),
                   result, fs, digests)
    ensures result.Failure? ==> |digests| < |CommitOrder| && Schedule[k] == CommitStep(CommitOrder[|digests|])
  {
    // F: commit Z and derive α.
    var cz := b.commit(z);
    if cz.Failure? {
      return Failure(cz.error), 8, t, lro;
    }
    var alpha;
    fs, alpha := DeriveAlpha(b, t, lro, cz.value);

    // G: the quotient, split in three.
    var h1, h2, h3 := ComputeH(b, ind, ord, start, alpha, pk.finerGenerator, pk.cardinality, pk.hCardinality);
    var ps := [cl, cr, co, z, h1, h2, h3];

    // H and I.
    result, k, fs, digests := ProveAfterAlpha(b, pk, ps, lro, cz.value, fs, gamma, alpha);
    assert ps == [cl, cr, co, z] + QuotientBlocks(b, pk, ind, ord, start, ChallengeAfter(b, T.Alpha, digests, 4));
  }

  /**
   * Stages H and I, given the seven polynomials `ps` of `CommitOrder`,
   * after L, R, O and Z are committed to `lro` and `zd` and bound, and α
   * derived. Returns the proof, or the error and the index in the schedule
   * of the h commitment that failed, with the digests of the commitments
   * that succeeded.
   */
  method ProveAfterAlpha<G>(b: Backend<G>, pk: ProvingKey<G>, ps: seq<seq<Fe>>, lro: seq<G>, zd: G,
                            t: T.Transcript<G>, gamma: Fe, alpha: Fe)
    returns (result: Result<Proof<G>>, k: nat, fs: T.Transcript<G>, digests: seq<G>)
    requires |ps| == |CommitOrder| && |lro| == 3
    requires forall i :: 0 <= i < 3 ==> b.commit(ps[i]) == Success(lro[i])
    requires b.commit(ps[3]) == Success(zd)
    requires gamma == b.hash(T.Gamma, lro) && alpha == b.hash(T.Alpha, lro + [zd])
    requires t.bindings == [(T.Gamma, lro[0]), (T.Gamma, lro[1]), (T.Gamma, lro[2]), (T.Alpha, zd)]
    requires t.derived == map[T.Gamma := gamma, T.Alpha := alpha]
    ensures 11 <= k < |Schedule|
    ensures 4 <= |digests| && digests[..4] == lro + [zd]
    ensures Proved(b, pk, ps, result, fs, digests)
    ensures result.Failure? ==> |digests| < |CommitOrder| && Schedule[k] == CommitStep(CommitOrder[|digests|])
  {
    fs := t;
    k := 11;

    // H: commit h1, h2, h3 and derive ζ.
    var hd, err := CommitEach(b, ps[4..]);
    digests := lro + [zd] + hd;
    CommitsInOrder(b, ps, lro, zd, hd);
    if err.Some? {
      assert Schedule[11 + |hd|] == CommitStep(CommitOrder[4 + |hd|]);
      return Failure(err.value), 11 + |hd|, fs, digests;
    }
    result, fs := Finish(b, pk, ps, lro, zd, hd, fs, gamma, alpha);
  }

  /** Digests of the wires, Z and a prefix of the h blocks, each committing the polynomial at its position. */
  lemma CommitsInOrder<G>(b: Backend<G>, ps: seq<seq<Fe>>, lro: seq<G>, zd: G, hd: seq<G>)
    requires |ps| == |CommitOrder| && |lro| == 3 && |hd| <= 3
    requires forall i :: 0 <= i < 3 ==> b.commit(ps[i]) == Success(lro[i])
    requires b.commit(ps[3]) == Success(zd)
    requires forall i :: 0 <= i < |hd| ==> b.commit(ps[4..][i]) == Success(hd[i])
    ensures (lro + [zd] + hd)[..4] == lro + [zd]
    ensures forall i :: 0 <= i < |lro + [zd] + hd| ==> b.commit(ps[i]) == Success((lro + [zd] + hd)[i])
  {
    var ds := lro + [zd] + hd;
    assert ds[..4] == lro + [zd];
    forall i | 0 <= i < |ds|
      ensures b.commit(ps[i]) == Success(ds[i])
    {
      if i >= 4 {
        assert ds[i] == hd[i - 4] && ps[i] == ps[4..][i - 4];
      }
    }
  }

  /**
   * The end of stage H and stage I, once h1, h2, h3 are committed to `hd`:
   * the proof, its openings and the transcript with ζ derived.
   */
  method Finish<G>(b: Backend<G>, pk: ProvingKey<G>, ps: seq<seq<Fe>>, lro: seq<G>, zd: G, hd: seq<G>,
                   t: T.Transcript<G>, gamma: Fe, alpha: Fe)
    returns (result: Result<Proof<G>>, fs: T.Transcript<G>)
    requires |ps| == |CommitOrder| && |lro| == 3 && |hd| == 3
    requires gamma == b.hash(T.Gamma, lro) && alpha == b.hash(T.Alpha, lro + [zd])
    requires t.bindings == [(T.Gamma, lro[0]), (T.Gamma, lro[1]), (T.Gamma, lro[2]), (T.Alpha, zd)]
    requires t.derived == map[T.Gamma := gamma, T.Alpha := alpha]
    ensures result.Success? && result.value.lro == lro && result.value.z == zd && result.value.h == hd
    ensures OpeningsAre(b, pk, result.value.zShiftedOpening, result.value.batchedProof,
                        ps[0], ps[1], ps[2], ps[3], ps[4], ps[5], ps[6],
                        lro, hd, alpha, gamma, b.hash(T.Zeta, lro + [zd] + hd))
    ensures fs.bindings == [(T.Gamma, lro[0]), (T.Gamma, lro[1]), (T.Gamma, lro[2]), (T.Alpha, zd),
                            (T.Zeta, hd[0]), (T.Zeta, hd[1]), (T.Zeta, hd[2])]
    ensures fs.derived == map[T.Gamma := gamma, T.Alpha := alpha, T.Zeta := b.hash(T.Zeta, lro + [zd] + hd)]
  {
    var zeta;
    fs, zeta := DeriveZeta(b, t, lro, zd, hd);

    // I: openings.
    var zOpening, batched := Open(b, pk, ps[0], ps[1], ps[2], ps[3], ps[4], ps[5], ps[6], lro, hd, alpha, gamma, zeta);
    result := Success(Proof(lro, zd, hd, batched, zOpening));
  }

  /** Stage A and the first half of B: the wires in Lagrange form and in canonical form. */
  method Wires<G>(b: Backend<G>, spr: SparseR1CS, pk: ProvingKey<G>, solution: seq<Fe>)
    returns (ll: seq<Fe>, lr: seq<Fe>, lo: seq<Fe>, cl: seq<Fe>, cr: seq<Fe>, co: seq<Fe>)
    requires WellFormed(pk, spr)
    requires Layable(spr, pk.cardinality, solution)
    ensures ll == WireVector(spr, pk.cardinality, solution, Left)
    ensures lr == WireVector(spr, pk.cardinality, solution, Right)
    ensures lo == WireVector(spr, pk.cardinality, solution, Output)
    ensures cl == ToCanonical(b, DomainNum, ll, DIF, 0)
    ensures cr == ToCanonical(b, DomainNum, lr, DIF, 0)
    ensures co == ToCanonical(b, DomainNum, lo, DIF, 0)
  {
    ll, lr, lo := ComputeLRO(spr, pk.cardinality, solution);
    cl := ToCanonical(b, DomainNum, ll, DIF, 0);
    cr := ToCanonical(b, DomainNum, lr, DIF, 0);
    co := ToCanonical(b, DomainNum, lo, DIF, 0);
  }

  /**
   * Commits to each polynomial in turn, stopping at the first failure.
   * Returns the digests of the commitments that succeeded and the error of
   * the one that failed, if any.
   */
  method CommitEach<G>(b: Backend<G>, polys: seq<seq<Fe>>) returns (digests: seq<G>, err: Option<Error>)
    ensures |digests| <= |polys|
    ensures forall i :: 0 <= i < |digests| ==> b.commit(polys[i]) == Success(digests[i])
    ensures err.None? <==> |digests| == |polys|
    ensures err.Some? ==> b.commit(polys[|digests|]) == Failure(err.value)
  {
    digests := [];
    var i := 0;
    while i < |polys|
      invariant 0 <= i <= |polys|
      invariant |digests| == i
      invariant forall k :: 0 <= k < i ==> b.commit(polys[k]) == Success(digests[k])
    {
      var c := b.commit(polys[i]);
      if c.Failure? {
        return digests, Some(c.error);
      }
      digests := digests + [c.value];
      i := i + 1;
    }
    return digests, None;
  }

  /**
   * Binds the values to a fresh slot in order and derives its challenge.
   * Neither step can fail: the slot has no challenge yet and gets at least
   * one value.
   */
  method BindAndDerive<G>(b: Backend<G>, t: T.Transcript<G>, s: T.Slot, values: seq<G>)
    returns (t': T.Transcript<G>, challenge: Fe)
    requires s !in t.derived && |values| >= 1
    requires forall s' :: s' in t.derived ==> T.Position(s') < T.Position(s)
    ensures t'.bindings == t.bindings + seq(|values|, i requires 0 <= i < |values| => (s, values[i]))
    ensures challenge == b.hash(s, T.ChallengeInputs(t'.bindings, s))
    ensures t'.derived == t.derived[s := challenge]
  {
    t' := t;
    var i := 0;
    while i < |values|
      invariant 0 <= i <= |values|
      invariant t'.bindings == t.bindings + seq(i, k requires 0 <= k < i => (s, values[k]))
      invariant t'.derived == t.derived
    {
      var r := T.Bind(t', s, values[i]);
      t' := r.value;
      i := i + 1;
    }
    assert T.IsBound(t'.bindings, s) by {
      assert t'.bindings[|t.bindings|] == (s, values[0]);
    }
    var c := T.ComputeChallenge(t', b.hash, s);
    t', challenge := c.value.0, c.value.1;
  }

  /** The end of stage B: L, R, O bound to γ in a fresh transcript, and γ derived from them. */
  method DeriveGamma<G>(b: Backend<G>, lro: seq<G>) returns (fs: T.Transcript<G>, gamma: Fe)
    requires |lro| == 3
    ensures fs.bindings == [(T.Gamma, lro[0]), (T.Gamma, lro[1]), (T.Gamma, lro[2])]
    ensures gamma == b.hash(T.Gamma, lro)
    ensures fs.derived == map[T.Gamma := gamma]
  {
    fs, gamma := BindAndDerive(b, T.NewTranscript(), T.Gamma, lro);
    assert fs.bindings == [(T.Gamma, lro[0]), (T.Gamma, lro[1]), (T.Gamma, lro[2])];
    T.InputsInOrder(fs.bindings, T.Gamma);
    assert T.ChallengeInputs(fs.bindings, T.Gamma) == lro;
  }

  /** The end of stage F: Z bound to α after L, R, O, and α derived from all four. */
  method DeriveAlpha<G>(b: Backend<G>, t: T.Transcript<G>, lro: seq<G>, zd: G) returns (fs: T.Transcript<G>, alpha: Fe)
    requires |lro| == 3
    requires t.bindings == [(T.Gamma, lro[0]), (T.Gamma, lro[1]), (T.Gamma, lro[2])]
    requires t.derived == map[T.Gamma := b.hash(T.Gamma, lro)]
    ensures fs.bindings == [(T.Gamma, lro[0]), (T.Gamma, lro[1]), (T.Gamma, lro[2]), (T.Alpha, zd)]
    ensures alpha == b.hash(T.Alpha, lro + [zd])
    ensures fs.derived == map[T.Gamma := b.hash(T.Gamma, lro), T.Alpha := alpha]
  {
    fs, alpha := BindAndDerive(b, t, T.Alpha, [zd]);
    assert fs.bindings == [(T.Gamma, lro[0]), (T.Gamma, lro[1]), (T.Gamma, lro[2]), (T.Alpha, zd)];
    T.InputsInOrder(fs.bindings, T.Alpha);
    assert T.ChallengeInputs(fs.bindings, T.Alpha) == lro + [zd];
  }

  /** The end of stage H: h1, h2, h3 bound to ζ after L, R, O and Z, and ζ derived from all seven. */
  method DeriveZeta<G>(b: Backend<G>, t: T.Transcript<G>, lro: seq<G>, zd: G, hd: seq<G>)
    returns (fs: T.Transcript<G>, zeta: Fe)
    requires |lro| == 3 && |hd| == 3
    requires t.bindings == [(T.Gamma, lro[0]), (T.Gamma, lro[1]), (T.Gamma, lro[2]), (T.Alpha, zd)]
    requires t.derived == map[T.Gamma := b.hash(T.Gamma, lro), T.Alpha := b.hash(T.Alpha, lro + [zd])]
    ensures fs.bindings == [(T.Gamma, lro[0]), (T.Gamma, lro[1]), (T.Gamma, lro[2]), (T.Alpha, zd),
                            (T.Zeta, hd[0]), (T.Zeta, hd[1]), (T.Zeta, hd[2])]
    ensures zeta == b.hash(T.Zeta, lro + [zd] + hd)
    ensures fs.derived == map[T.Gamma := b.hash(T.Gamma, lro), T.Alpha := b.hash(T.Alpha, lro + [zd]),
                              T.Zeta := zeta]
  {
    fs, zeta := BindAndDerive(b, t, T.Zeta, hd);
    assert fs.bindings == [(T.Gamma, lro[0]), (T.Gamma, lro[1]), (T.Gamma, lro[2]), (T.Alpha, zd),
                           (T.Zeta, hd[0]), (T.Zeta, hd[1]), (T.Zeta, hd[2])];
    T.InputsInOrder(fs.bindings, T.Zeta);
    assert T.ChallengeInputs(fs.bindings, T.Zeta) == lro + [zd] + hd;
  }

  /**
   * Stage C: Z from the Lagrange-basis wires and γ, moved to canonical
   * form.
   */
  method Accumulate<G>(b: Backend<G>, spr: SparseR1CS, pk: ProvingKey<G>, ll: seq<Fe>, lr: seq<Fe>, lo: seq<Fe>, gamma: Fe)
    returns (zl: seq<Fe>, z: seq<Fe>)
    requires WellFormed(pk, spr)
    requires DomainWires(pk, ll, lr, lo)
    ensures zl == AccumulatorVector(ZInputs(pk, ll, lr, lo, gamma), pk.cardinality)
    ensures z == ToCanonical(b, DomainNum, zl, DIF, 0)
    ensures z == ZPoly(b, spr, pk, ll, lr, lo, gamma)
  {
    zl := ComputeZ(ZInputs(pk, ll, lr, lo, gamma), pk.cardinality);
    z := ToCanonical(b, DomainNum, zl, DIF, 0);
  }

  /**
   * Stages D and E: Z(uX) by rotation of Z, the coset evaluations, and the
   * gate, ordering and starts-at-one terms on the 4n coset points.
   */
  method Arithmetize<G>(b: Backend<G>, spr: SparseR1CS, pk: ProvingKey<G>, fullWitness: seq<Fe>,
                        ll: seq<Fe>, lr: seq<Fe>, lo: seq<Fe>, cl: seq<Fe>, cr: seq<Fe>, co: seq<Fe>,
                        zl: seq<Fe>, z: seq<Fe>, gamma: Fe)
    returns (ind: seq<Fe>, ord: seq<Fe>, start: seq<Fe>)
    requires WellFormed(pk, spr)
    requires spr.nbPublicVariables <= |fullWitness|
    requires DomainWires(pk, ll, lr, lo)
    requires cl == ToCanonical(b, DomainNum, ll, DIF, 0)
    requires cr == ToCanonical(b, DomainNum, lr, DIF, 0)
    requires co == ToCanonical(b, DomainNum, lo, DIF, 0)
    requires zl == AccumulatorVector(ZInputs(pk, ll, lr, lo, gamma), pk.cardinality)
    requires z == ToCanonical(b, DomainNum, zl, DIF, 0)
    ensures ind == GateTerms(b, spr, pk, fullWitness, ll, lr, lo)
    ensures ord == OrderingTerms(b, spr, pk, ll, lr, lo, gamma)
    ensures start == StartTerms(b, spr, pk, ll, lr, lo, gamma)
  {
    var n := pk.cardinality;
    var zul := ShiftZ(zl);
    var evalL := EvaluateCosets(b, cl, n);
    var evalR := EvaluateCosets(b, cr, n);
    var evalO := EvaluateCosets(b, co, n);
    var qkFull := PublicInputSelector(pk.lqk, fullWitness, spr.nbPublicVariables, n);
    var qkFullC := ToCanonical(b, DomainNum, qkFull, DIF, 0);
    ind := EvalConstraints(b, pk.ql, pk.qr, pk.qm, pk.qo, qkFullC, evalL, evalR, evalO, n);
    var zu := ToCanonical(b, DomainNum, zul, DIF, 0);
    var evalZ := EvaluateCosets(b, z, n);
    var evalZu := EvaluateCosets(b, zu, n);
    ord := EvalConstraintOrdering(b, pk.cs1, pk.cs2, pk.cs3, pk.generator, pk.finerGenerator,
                                  pk.vk.shifter1, pk.vk.shifter2, n, evalZ, evalZu, evalL, evalR, evalO, gamma);
    start := EvalStartsAtOne(b, n, evalZ);
  }

  /**
   * The openings of stage I: Z opened at ζ·ω, and the batch opening at ζ
   * of the folded h, the linearized polynomial, L, R, O, S1 and S2 with
   * their digests. The linearized polynomial is built from the values at
   * ζ and the claimed value of Z(ζ·ω); its digest falls back to the zero
   * digest when its commitment fails.
   */
  ghost predicate OpeningsAre<G>(b: Backend<G>, pk: ProvingKey<G>, zOpening: OpeningProof<G>, batched: BatchOpeningProof<G>,
                           cl: seq<Fe>, cr: seq<Fe>, co: seq<Fe>, z: seq<Fe>, h1: seq<Fe>, h2: seq<Fe>, h3: seq<Fe>,
                           lro: seq<G>, hd: seq<G>, alpha: Fe, gamma: Fe, zeta: Fe)
    requires |lro| == 3 && |hd| == 3
  {
    var zetaN := Pow(zeta, pk.cardinality);
    var lin := Linearize(pk, Eval(cl, zeta), Eval(cr, zeta), Eval(co, zeta), alpha, gamma, zeta,
                         zOpening.claimedValue, z);
    var linDigest := if b.commit(lin).Success? then b.commit(lin).value else b.zeroDigest;
    zOpening == b.open(z, Mul(zeta, pk.vk.generator)) &&
    batched == b.batchOpen([FoldH(h1, h2, h3, zetaN), lin, cl, cr, co, pk.cs1, pk.cs2],
                           [FoldDigests(b, hd[0], hd[1], hd[2], zetaN), linDigest, lro[0], lro[1], lro[2],
                            pk.vk.s1, pk.vk.s2], zeta)
  }

  /**
   * Stage I. The errors of these calls are discarded, as in the source.
   */
  method Open<G>(b: Backend<G>, pk: ProvingKey<G>, cl: seq<Fe>, cr: seq<Fe>, co: seq<Fe>, z: seq<Fe>,
                 h1: seq<Fe>, h2: seq<Fe>, h3: seq<Fe>, lro: seq<G>, hd: seq<G>, alpha: Fe, gamma: Fe, zeta: Fe)
    returns (zOpening: OpeningProof<G>, batched: BatchOpeningProof<G>)
    requires |lro| == 3 && |hd| == 3
    ensures OpeningsAre(b, pk, zOpening, batched, cl, cr, co, z, h1, h2, h3, lro, hd, alpha, gamma, zeta)
  {
    var zetaShifted := Mul(zeta, pk.vk.generator);
    zOpening := b.open(z, zetaShifted);
    var zuzeta := zOpening.claimedValue;
    var lzeta, rzeta, ozeta := Eval(cl, zeta), Eval(cr, zeta), Eval(co, zeta);
    var lin := Linearize(pk, lzeta, rzeta, ozeta, alpha, gamma, zeta, zuzeta, z);
    var zetaN := Pow(zeta, pk.cardinality);
    var foldedHDigest := FoldDigests(b, hd[0], hd[1], hd[2], zetaN);
    var foldedH := FoldH(h1, h2, h3, zetaN);
    var linCommit := b.commit(lin);
    var linDigest := if linCommit.Success? then linCommit.value else b.zeroDigest;
    batched := b.batchOpen([foldedH, lin, cl, cr, co, pk.cs1, pk.cs2],
                           [foldedHDigest, linDigest, lro[0], lro[1], lro[2], pk.vk.s1, pk.vk.s2], zeta);
  }
}
