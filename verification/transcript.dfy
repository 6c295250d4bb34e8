/**
 * The Fiat-Shamir transcript of the prover, created with the three
 * challenge slots "gamma", "alpha", "zeta" in that order. It is kept as an
 * ordered log of bound values; the hash that turns a slot's inputs into a
 * challenge (SHA-256 followed by `SetBytes`) is a parameter.
 */
module Transcript {
  import opened Wrappers
  import opened Field

  /** The challenge slots, declared in this order when the transcript is created. */
  datatype Slot = Gamma | Alpha | Zeta

  function Position(s: Slot): nat
  {
    match s
    case Gamma => 0
    case Alpha => 1
    case Zeta => 2
  }

  /** The bound values in binding order, and the challenges derived so far. */
  datatype Transcript<G> = Transcript(bindings: seq<(Slot, G)>, derived: map<Slot, Fe>)

  function NewTranscript<G>(): Transcript<G>
  {
    Transcript([], map[])
  }

  /**
   * What a slot's challenge depends on: every value bound to it or to an
   * earlier slot, in binding order.
   */
  function ChallengeInputs<G>(bindings: seq<(Slot, G)>, s: Slot): (v: seq<G>)
    ensures |v| <= |bindings|
  {
    if |bindings| == 0 then []
    else
      var rest := ChallengeInputs(bindings[..|bindings| - 1], s);
      var (slot, value) := bindings[|bindings| - 1];
      if Position(slot) <= Position(s) then rest + [value] else rest
  }

  /** Whether some value has been bound to slot s. */
  predicate IsBound<G>(bindings: seq<(Slot, G)>, s: Slot)
  {
    exists i :: 0 <= i < |bindings| && bindings[i].0 == s
  }

  /** `Bind`: appends a value to a slot; fails once the slot's challenge has been derived. */
  function Bind<G>(t: Transcript<G>, s: Slot, value: G): (r: Result<Transcript<G>>)
    ensures r.Success? <==> s !in t.derived
    ensures r.Success? ==> r.value.bindings == t.bindings + [(s, value)] && r.value.derived == t.derived
  {
    if s in t.derived then Failure(Error("challenge already computed"))
    else Success(Transcript(t.bindings + [(s, value)], t.derived))
  }

  /**
   * `ComputeChallenge`: a challenge already derived is returned again;
   * otherwise the slot must have been bound, and the challenge is the hash
   * of its inputs, recorded so that later binds to the slot fail.
   */
  function ComputeChallenge<G>(t: Transcript<G>, hash: (Slot, seq<G>) -> Fe, s: Slot): (r: Result<(Transcript<G>, Fe)>)
    ensures r.Success? <==> s in t.derived || IsBound(t.bindings, s)
    ensures r.Success? ==> r.value.0.bindings == t.bindings
    ensures r.Success? && s in t.derived ==> r.value == (t, t.derived[s])
    ensures r.Success? && s !in t.derived ==>
      r.value.1 == hash(s, ChallengeInputs(t.bindings, s)) && r.value.0.derived == t.derived[s := r.value.1]
  {
    if s in t.derived then Success((t, t.derived[s]))
    else if IsBound(t.bindings, s) then
      var c := hash(s, ChallengeInputs(t.bindings, s));
      Success((Transcript(t.bindings, t.derived[s := c]), c))
    else Failure(Error("challenge not bound"))
  }

  /** Binding to a later slot does not change an earlier slot's challenge inputs. */
  lemma LaterBindIgnored<G>(bindings: seq<(Slot, G)>, s: Slot, later: Slot, value: G)
    requires Position(s) < Position(later)
    ensures ChallengeInputs(bindings + [(later, value)], s) == ChallengeInputs(bindings, s)
  {
    assert (bindings + [(later, value)])[..|bindings|] == bindings;
  }

  /** Binding to the slot itself or an earlier one appends the value to its inputs. */
  lemma BindExtends<G>(bindings: seq<(Slot, G)>, s: Slot, earlier: Slot, value: G)
    requires Position(earlier) <= Position(s)
    ensures ChallengeInputs(bindings + [(earlier, value)], s) == ChallengeInputs(bindings, s) + [value]
  {
    assert (bindings + [(earlier, value)])[..|bindings|] == bindings;
  }

  /** Once a slot's challenge is derived, binding to it fails and its challenge never changes. */
  lemma DerivedIsFinal<G>(t: Transcript<G>, hash: (Slot, seq<G>) -> Fe, s: Slot, value: G)
    requires IsBound(t.bindings, s)
    ensures var r := ComputeChallenge(t, hash, s);
      r.Success? && Bind(r.value.0, s, value).Failure? &&
      ComputeChallenge(r.value.0, hash, s) == Success((r.value.0, r.value.1))
  {
  }

  /**
   * The order of binding matters: binding x then y gives the inputs [x, y],
   * binding y then x gives [y, x], and the two differ exactly when x != y.
   * A hash without a collision between those two inputs then derives two
   * different challenges.
   */
  lemma BindOrderMatters<G>(hash: (Slot, seq<G>) -> Fe, s: Slot, x: G, y: G)
    ensures ChallengeInputs([(s, x), (s, y)], s) == [x, y]
    ensures ChallengeInputs([(s, y), (s, x)], s) == [y, x]
    ensures ChallengeInputs([(s, x), (s, y)], s) != ChallengeInputs([(s, y), (s, x)], s) <==> x != y
    ensures x != y && (hash(s, [x, y]) == hash(s, [y, x]) ==> [x, y] == [y, x]) ==>
      hash(s, ChallengeInputs([(s, x), (s, y)], s)) != hash(s, ChallengeInputs([(s, y), (s, x)], s))
  {
    BindExtends([(s, x)], s, s, y);
    BindExtends([(s, y)], s, s, x);
    BindExtends([], s, s, x);
    BindExtends([], s, s, y);
    assert [(s, x)] == [] + [(s, x)];
    assert [(s, y)] == [] + [(s, y)];
    assert [(s, x), (s, y)] == [(s, x)] + [(s, y)];
    assert [(s, y), (s, x)] == [(s, y)] + [(s, x)];
    assert ChallengeInputs([(s, x), (s, y)], s) == [x, y];
    assert ChallengeInputs([(s, y), (s, x)], s) == [y, x];
  }

  /**
   * When nothing was bound to a later slot, a slot's challenge depends on
   * every bound value, in binding order.
   */
  lemma {:induction false} InputsInOrder<G>(bindings: seq<(Slot, G)>, s: Slot)
    requires forall i :: 0 <= i < |bindings| ==> Position(bindings[i].0) <= Position(s)
    ensures |ChallengeInputs(bindings, s)| == |bindings|
    ensures forall i :: 0 <= i < |bindings| ==> ChallengeInputs(bindings, s)[i] == bindings[i].1
  {
    if |bindings| > 0 {
      InputsInOrder(bindings[..|bindings| - 1], s);
    }
  }
}
