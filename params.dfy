/** Parameters of MT19937-64 on 64-bit words: degree of recurrence, middle
    offset, twist matrix, tempering masks and the seeding constants. */
module Params {
  /** Degree of recurrence: the number of words of state. */
  const N: nat := 312
  /** Middle word offset. */
  const M: nat := 156
  /** Offset that maps an index in the upper part of the state back to its
      partner word in the lower part during the twist. */
  const DIFF: int := M - N

  /** Row of the twist matrix, selected by the low bit of the combined word. */
  const MAGIC: seq<bv64> := [0, 0xB5026F5AA96619E9]

  /** Tempering masks (the tempering shifts U, S, T and L appear in the
      tempering steps themselves). */
  const D: bv64 := 0x5555555555555555
  const B: bv64 := 0x71D67FFFEDA60000
  const C: bv64 := 0xFFF7EEE000000000

  /** Shift of the seeding recurrences: the word size 64 minus 2, as a
      7-bit vector, which is all a shift of a 64-bit word needs. */
  const SEED_SHIFT: bv7 := 62
  /** Multiplier of the scalar seeding recurrence. */
  const F: bv64 := 6364136223846793005
  /** Seed of the default generator. */
  const DEFAULT_SEED: bv64 := 5489

  /** The twist joins the top 33 bits of one word with the low 31 bits of the next. */
  const UPPER_MASK: bv64 := 0xFFFFFFFF80000000
  const LOWER_MASK: bv64 := 0x7FFFFFFF
}
