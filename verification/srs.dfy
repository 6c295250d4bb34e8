/**
 * `newKZGSrs` of backend/plonk/assert.go: the size of the test structured
 * reference string. All five curve branches compute the same size, so the
 * curve switch is not modelled.
 */
module Srs {
  import opened PowerOfTwo
  import opened WireLayout

  /**
   * The size handed to `NewSRS`: the next power of two above the number of
   * constraints, assertions and public variables, i.e. above the slots that
   * `computeLRO` fills with witness data. Whenever the rounding does not
   * overflow a Go int, those slots fit in a domain of that size.
   */
  method NewKzgSrsSize(spr: SparseR1CS) returns (size: int)
    requires NbSlots(spr) < TwoTo63
    ensures NbSlots(spr) <= TwoTo62 ==> NbSlots(spr) <= size
    ensures 1 <= NbSlots(spr) <= TwoTo62 ==> size < 2 * NbSlots(spr) && IsPowerOfTwo(size)
  {
    var n := |spr.constraints| + |spr.assertions| + spr.nbPublicVariables;
    size := NextPowerOfTwo(n);
  }
}
