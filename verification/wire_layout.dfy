/**
 * Stage A of the prover, `computeLRO`: the solved witness scattered into the
 * left, right and output wire vectors, in Lagrange basis.
 *
 * The slot order is: one slot per public variable, one per gate, one per
 * assertion, then padding up to the domain cardinality.
 */
module WireLayout {
  import opened Field
  import opened Polynomials

  /** A sparse R1CS constraint, reduced to the variable ids its three wires read. */
  datatype Gate = Gate(l: nat, r: nat, o: nat)

  /** The parts of `cs.SparseR1CS` the prover reads. */
  datatype SparseR1CS = SparseR1CS(nbPublicVariables: nat, constraints: seq<Gate>, assertions: seq<Gate>)

  /** Number of slots that carry witness data: public inputs, gates and assertions. */
  function NbSlots(spr: SparseR1CS): nat
  {
    spr.nbPublicVariables + |spr.constraints| + |spr.assertions|
  }

  /** Every wire of every gate names one of the first `nbVariables` variables. */
  predicate GatesReadWithin(gates: seq<Gate>, nbVariables: nat)
  {
    forall i :: 0 <= i < |gates| ==>
      gates[i].l < nbVariables && gates[i].r < nbVariables && gates[i].o < nbVariables
  }

  /** Every wire of every gate and assertion names a variable of the solution. */
  predicate ReadsWithin(spr: SparseR1CS, nbVariables: nat)
  {
    GatesReadWithin(spr.constraints, nbVariables) && GatesReadWithin(spr.assertions, nbVariables)
  }

  /** The three wires of a slot: left, right and output. */
  datatype Port = Left | Right | Output

  function Read(g: Gate, p: Port): nat
  {
    match p
    case Left => g.l
    case Right => g.r
    case Output => g.o
  }

  /**
   * The variables slot k reads: public input k on the left wire with
   * variable 0 on the other two, then the gates, then the assertions, and
   * variable 0 on every wire of a padding slot.
   */
  function SlotGate(spr: SparseR1CS, k: nat): Gate
  {
    var nb, nc := spr.nbPublicVariables, |spr.constraints|;
    if k < nb then Gate(k, 0, 0)
    else if k < nb + nc then spr.constraints[k - nb]
    else if k < NbSlots(spr) then spr.assertions[k - nb - nc]
    else Gate(0, 0, 0)
  }

  /** What `computeLRO` needs to lay the solution out on a domain of size s. */
  predicate Layable(spr: SparseR1CS, s: nat, solution: seq<Fe>)
  {
    NbSlots(spr) <= s && spr.nbPublicVariables <= |solution| && ReadsWithin(spr, |solution|) &&
    (NbSlots(spr) < s ==> |solution| > 0)
  }

  lemma SlotReadsWithin(spr: SparseR1CS, s: nat, solution: seq<Fe>, k: nat, p: Port)
    requires Layable(spr, s, solution) && k < s
    ensures Read(SlotGate(spr, k), p) < |solution|
  {
  }

  /** One wire vector, slot by slot: the solution value of the variable the slot reads on that wire. */
  function WireVector(spr: SparseR1CS, s: nat, solution: seq<Fe>, p: Port): (v: seq<Fe>)
    requires Layable(spr, s, solution)
    ensures |v| == s
  {
    seq(s, k requires 0 <= k < s =>
      SlotReadsWithin(spr, s, solution, k, p);
      solution[Read(SlotGate(spr, k), p)])
  }

  /**
   * `computeLRO(spr, pk, solution)` with `s == pk.DomainNum.Cardinality`.
   * The solution must cover the public variables and every variable a wire
   * reads, and the slots must fit in the domain; otherwise Go indexes out of
   * range.
   */
  method ComputeLRO(spr: SparseR1CS, s: nat, solution: seq<Fe>) returns (l: seq<Fe>, r: seq<Fe>, o: seq<Fe>)
    requires NbSlots(spr) <= s
    requires spr.nbPublicVariables <= |solution|
    requires ReadsWithin(spr, |solution|)
    requires NbSlots(spr) < s ==> |solution| > 0
    ensures |l| == s && |r| == s && |o| == s
    ensures forall i :: 0 <= i < spr.nbPublicVariables ==>
      l[i] == solution[i] && r[i] == solution[0] && o[i] == solution[0]
    ensures forall i :: 0 <= i < |spr.constraints| ==>
      var k, g := spr.nbPublicVariables + i, spr.constraints[i];
      l[k] == solution[g.l] && r[k] == solution[g.r] && o[k] == solution[g.o]
    ensures forall i :: 0 <= i < |spr.assertions| ==>
      var k, g := spr.nbPublicVariables + |spr.constraints| + i, spr.assertions[i];
      l[k] == solution[g.l] && r[k] == solution[g.r] && o[k] == solution[g.o]
    ensures forall k :: NbSlots(spr) <= k < s ==>
      l[k] == solution[0] && r[k] == solution[0] && o[k] == solution[0]
    ensures l == WireVector(spr, s, solution, Left)
    ensures r == WireVector(spr, s, solution, Right)
    ensures o == WireVector(spr, s, solution, Output)
  {
    var nb := spr.nbPublicVariables;
    l, r, o := seq(s, _ => 0), seq(s, _ => 0), seq(s, _ => 0);
    l, r, o := LayPublic(l, r, o, nb, solution);
    l, r, o := LayGates(l, r, o, nb, spr.constraints, solution);
    l, r, o := LayGates(l, r, o, nb + |spr.constraints|, spr.assertions, solution);
    if NbSlots(spr) < s {
      l, r, o := LayPadding(l, r, o, NbSlots(spr), solution[0]);
    }
    RegionsAreSlots(spr, s, solution, l, r, o);
  }

  /** The slot-by-slot reading of the region-by-region layout `computeLRO` fills. */
  lemma RegionsAreSlots(spr: SparseR1CS, s: nat, solution: seq<Fe>, l: seq<Fe>, r: seq<Fe>, o: seq<Fe>)
    requires Layable(spr, s, solution)
    requires |l| == s && |r| == s && |o| == s
    requires forall i :: 0 <= i < spr.nbPublicVariables ==>
      l[i] == solution[i] && r[i] == solution[0] && o[i] == solution[0]
    requires forall i :: 0 <= i < |spr.constraints| ==>
      var k, g := spr.nbPublicVariables + i, spr.constraints[i];
      l[k] == solution[g.l] && r[k] == solution[g.r] && o[k] == solution[g.o]
    requires forall i :: 0 <= i < |spr.assertions| ==>
      var k, g := spr.nbPublicVariables + |spr.constraints| + i, spr.assertions[i];
      l[k] == solution[g.l] && r[k] == solution[g.r] && o[k] == solution[g.o]
    requires forall k :: NbSlots(spr) <= k < s ==>
      l[k] == solution[0] && r[k] == solution[0] && o[k] == solution[0]
    ensures l == WireVector(spr, s, solution, Left)
    ensures r == WireVector(spr, s, solution, Right)
    ensures o == WireVector(spr, s, solution, Output)
  {
    var nb, nc := spr.nbPublicVariables, |spr.constraints|;
    forall k | 0 <= k < s
      ensures l[k] == solution[SlotGate(spr, k).l]
      ensures r[k] == solution[SlotGate(spr, k).r]
      ensures o[k] == solution[SlotGate(spr, k).o]
    {
      if k < nb {
      } else if k < nb + nc {
        var i := k - nb;
        assert nb + i == k;
      } else if k < NbSlots(spr) {
        var i := k - nb - nc;
        assert nb + nc + i == k;
      }
    }
  }

  /** The public-input loop (prove.go:320-324): the right and output copies read variable 0. */
  method LayPublic(l0: seq<Fe>, r0: seq<Fe>, o0: seq<Fe>, nb: nat, solution: seq<Fe>)
    returns (l: seq<Fe>, r: seq<Fe>, o: seq<Fe>)
    requires |r0| == |l0| && |o0| == |l0|
    requires nb <= |l0| && nb <= |solution|
    ensures |l| == |l0| && |r| == |l0| && |o| == |l0|
    ensures forall i :: 0 <= i < nb ==> l[i] == solution[i] && r[i] == solution[0] && o[i] == solution[0]
    ensures forall k :: nb <= k < |l0| ==> l[k] == l0[k] && r[k] == r0[k] && o[k] == o0[k]
  {
    l, r, o := l0, r0, o0;
    var i := 0;
    while i < nb
      invariant 0 <= i <= nb
      invariant |l| == |l0| && |r| == |l0| && |o| == |l0|
      invariant forall j :: 0 <= j < i ==> l[j] == solution[j] && r[j] == solution[0] && o[j] == solution[0]
      invariant forall k :: i <= k < |l0| ==> l[k] == l0[k] && r[k] == r0[k] && o[k] == o0[k]
    {
      l, r, o := l[i := solution[i]], r[i := solution[0]], o[i := solution[0]];
      i := i + 1;
    }
  }

  /** The constraint loop and the assertion loop (prove.go:325-337): slot offset+i copies gate i's operands. */
  method LayGates(l0: seq<Fe>, r0: seq<Fe>, o0: seq<Fe>, offset: nat, gates: seq<Gate>, solution: seq<Fe>)
    returns (l: seq<Fe>, r: seq<Fe>, o: seq<Fe>)
    requires |r0| == |l0| && |o0| == |l0|
    requires offset + |gates| <= |l0|
    requires GatesReadWithin(gates, |solution|)
    ensures |l| == |l0| && |r| == |l0| && |o| == |l0|
    ensures forall i :: 0 <= i < |gates| ==>
      l[offset + i] == solution[gates[i].l] && r[offset + i] == solution[gates[i].r] && o[offset + i] == solution[gates[i].o]
    ensures forall k :: 0 <= k < |l0| && !(offset <= k < offset + |gates|) ==>
      l[k] == l0[k] && r[k] == r0[k] && o[k] == o0[k]
  {
    l, r, o := l0, r0, o0;
    var i := 0;
    while i < |gates|
      invariant 0 <= i <= |gates|
      invariant |l| == |l0| && |r| == |l0| && |o| == |l0|
      invariant forall j :: 0 <= j < i ==>
        l[offset + j] == solution[gates[j].l] && r[offset + j] == solution[gates[j].r] && o[offset + j] == solution[gates[j].o]
      invariant forall k :: 0 <= k < |l0| && !(offset <= k < offset + i) ==>
        l[k] == l0[k] && r[k] == r0[k] && o[k] == o0[k]
    {
      var g := gates[i];
      l, r, o := l[offset + i := solution[g.l]], r[offset + i := solution[g.r]], o[offset + i := solution[g.o]];
      i := i + 1;
    }
  }

  /** The padding loop (prove.go:338-342): every slot from `offset` on holds `pad`, i.e. `solution[0]`. */
  method LayPadding(l0: seq<Fe>, r0: seq<Fe>, o0: seq<Fe>, offset: nat, pad: Fe)
    returns (l: seq<Fe>, r: seq<Fe>, o: seq<Fe>)
    requires |r0| == |l0| && |o0| == |l0|
    requires offset <= |l0|
    ensures |l| == |l0| && |r| == |l0| && |o| == |l0|
    ensures forall k :: offset <= k < |l0| ==> l[k] == pad && r[k] == pad && o[k] == pad
    ensures forall k :: 0 <= k < offset ==> l[k] == l0[k] && r[k] == r0[k] && o[k] == o0[k]
  {
    l, r, o := l0, r0, o0;
    var i := 0;
    while i < |l0| - offset
      invariant 0 <= i <= |l0| - offset
      invariant |l| == |l0| && |r| == |l0| && |o| == |l0|
      invariant forall k :: offset <= k < offset + i ==> l[k] == pad && r[k] == pad && o[k] == pad
      invariant forall k :: 0 <= k < |l0| && !(offset <= k < offset + i) ==>
        l[k] == l0[k] && r[k] == r0[k] && o[k] == o0[k]
    {
      l, r, o := l[offset + i := pad], r[offset + i := pad], o[offset + i := pad];
      i := i + 1;
    }
  }

  /**
   * `qkFullC` before its inverse FFT (prove.go:150-152): the Lagrange-basis
   * Qk selector with its public-input slots overwritten by the public part
   * of the full witness.
   */
  function PublicInputSelector(lqk: seq<Fe>, fullWitness: seq<Fe>, nbPublic: nat, s: nat): (qk: seq<Fe>)
    requires nbPublic <= |fullWitness|
    requires nbPublic <= s && nbPublic <= |lqk|
    ensures |qk| == s
    ensures forall i :: 0 <= i < nbPublic ==> qk[i] == fullWitness[i]
    ensures forall i :: nbPublic <= i < s ==> qk[i] == Coeff(lqk, i)
  {
    Fit(fullWitness[..nbPublic] + lqk[nbPublic..], s)
  }
}
