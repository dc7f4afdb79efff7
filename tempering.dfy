/** Tempering, which maps a state word to an output word, and its inverse.

    The shift amounts U = 29, S = 17, T = 37 and L = 43 are written as
    literals: a shift by a literal is a fixed rewiring of bits, which keeps
    the bit-vector proofs below small. */
module Tempering {
  import opened Params

  /** The four tempering steps, in the order the output routine applies
      them: y ^= (y >> U) & D, y ^= (y << S) & B, y ^= (y << T) & C and
      y ^= y >> L. */
  function TemperFirst(y: bv64): bv64 { y ^ ((y >> 29) & D) }
  function TemperSecond(y: bv64): bv64 { y ^ ((y << 17) & B) }
  function TemperThird(y: bv64): bv64 { y ^ ((y << 37) & C) }
  function TemperLast(y: bv64): bv64 { y ^ (y >> 43) }

  /** Tempering: the four xor-shift-mask steps applied in sequence. */
  function Temper(y: bv64): bv64
  {
    TemperLast(TemperThird(TemperSecond(TemperFirst(y))))
  }

  /** Inverse of the first step. The step leaves the top U bits unchanged,
      and each round of xor-ing back the shifted word recovers U more bits
      below them, so two rounds recover all 64. */
  function UndoFirst(z: bv64): bv64
  {
    var x1 := z ^ ((z >> 29) & D);
    z ^ ((x1 >> 29) & D)
  }

  /** Inverse of the second step. The step leaves the low S bits unchanged,
      and each round recovers S more bits above them, so three rounds
      recover all 64. */
  function UndoSecond(z: bv64): bv64
  {
    var x1 := z ^ ((z << 17) & B);
    var x2 := z ^ ((x1 << 17) & B);
    z ^ ((x2 << 17) & B)
  }

  /** Recovers the state word from an output word. The third and last steps
      shift by at least half a word, so each is its own inverse. */
  function Untemper(z: bv64): bv64
  {
    UndoFirst(UndoSecond(TemperThird(TemperLast(z))))
  }

  // The lemmas below split each inversion into facts the solver settles by
  // rewriting (an unfolding, a shift of an xor, an xor cancelling itself),
  // which the step lemmas then combine by congruence.

  lemma XorCancel(x: bv64, a: bv64)
    ensures (x ^ a) ^ a == x
  {
  }

  lemma UnfoldFirst(y: bv64)
    ensures TemperFirst(y) == y ^ ((y >> 29) & D)
  {
  }

  lemma UnfoldUndoFirst(z: bv64)
    ensures UndoFirst(z) == z ^ (((z ^ ((z >> 29) & D)) >> 29) & D)
  {
  }

  lemma UnfoldSecond(y: bv64)
    ensures TemperSecond(y) == y ^ ((y << 17) & B)
  {
  }

  lemma UnfoldUndoSecond(z: bv64)
    ensures UndoSecond(z) ==
      z ^ (((z ^ (((z ^ ((z << 17) & B)) << 17) & B)) << 17) & B)
  {
  }

  /** After the first step, the first round of its inverse differs from the
      original word only in bits that a shift by U discards. */
  lemma FirstRoundShift(y: bv64)
    ensures var z := y ^ ((y >> 29) & D);
            (z ^ ((z >> 29) & D)) >> 29 == y >> 29
  {
  }

  /** Likewise for a word z and the first two rounds of the inverse. */
  lemma FirstRoundsShift(z: bv64)
    ensures var x1 := z ^ ((z >> 29) & D);
            (z ^ ((x1 >> 29) & D)) >> 29 == x1 >> 29
  {
  }

  lemma SecondRoundShift(y: bv64)
    ensures var z := y ^ ((y << 17) & B);
            var x1 := z ^ ((z << 17) & B);
            (z ^ ((x1 << 17) & B)) << 17 == y << 17
  {
  }

  lemma SecondRoundsShift(z: bv64)
    ensures var x1 := z ^ ((z << 17) & B);
            var x2 := z ^ ((x1 << 17) & B);
            (z ^ ((x2 << 17) & B)) << 17 == x2 << 17
  {
  }

  lemma FirstUndone(y: bv64)
    ensures UndoFirst(TemperFirst(y)) == y
  {
    var z := y ^ ((y >> 29) & D);
    UnfoldFirst(y);
    UnfoldUndoFirst(z);
    FirstRoundShift(y);
    XorCancel(y, (y >> 29) & D);
  }

  lemma FirstRedone(z: bv64)
    ensures TemperFirst(UndoFirst(z)) == z
  {
    var x1 := z ^ ((z >> 29) & D);
    UnfoldUndoFirst(z);
    UnfoldFirst(z ^ ((x1 >> 29) & D));
    FirstRoundsShift(z);
    XorCancel(z, (x1 >> 29) & D);
  }

  lemma SecondUndone(y: bv64)
    ensures UndoSecond(TemperSecond(y)) == y
  {
    var z := y ^ ((y << 17) & B);
    UnfoldSecond(y);
    UnfoldUndoSecond(z);
    SecondRoundShift(y);
    XorCancel(y, (y << 17) & B);
  }

  lemma SecondRedone(z: bv64)
    ensures TemperSecond(UndoSecond(z)) == z
  {
    var x1 := z ^ ((z << 17) & B);
    var x2 := z ^ ((x1 << 17) & B);
    UnfoldUndoSecond(z);
    UnfoldSecond(z ^ ((x2 << 17) & B));
    SecondRoundsShift(z);
    XorCancel(z, (x2 << 17) & B);
  }

  lemma ThirdShift(y: bv64)
    ensures (y ^ ((y << 37) & C)) << 37 == y << 37
  {
  }

  lemma UnfoldThird(y: bv64)
    ensures TemperThird(y) == y ^ ((y << 37) & C)
  {
  }

  lemma ThirdInvolution(y: bv64)
    ensures TemperThird(TemperThird(y)) == y
  {
    UnfoldThird(y);
    UnfoldThird(y ^ ((y << 37) & C));
    ThirdShift(y);
    XorCancel(y, (y << 37) & C);
  }

  lemma LastShift(y: bv64)
    ensures (y ^ (y >> 43)) >> 43 == y >> 43
  {
  }

  lemma UnfoldLast(y: bv64)
    ensures TemperLast(y) == y ^ (y >> 43)
  {
  }

  lemma LastInvolution(y: bv64)
    ensures TemperLast(TemperLast(y)) == y
  {
    UnfoldLast(y);
    UnfoldLast(y ^ (y >> 43));
    LastShift(y);
    XorCancel(y, y >> 43);
  }

  /** Untemper undoes Temper: distinct state words give distinct outputs. */
  lemma UntemperTemper(y: bv64)
    ensures Untemper(Temper(y)) == y
  {
    hide TemperFirst, TemperSecond, TemperThird, TemperLast, UndoFirst, UndoSecond;
    var y1 := TemperFirst(y);
    var y2 := TemperSecond(y1);
    var y3 := TemperThird(y2);
    LastInvolution(y3);
    ThirdInvolution(y2);
    SecondUndone(y1);
    FirstUndone(y);
  }

  /** Temper undoes Untemper: every 64-bit word is the output of some state word. */
  lemma TemperUntemper(z: bv64)
    ensures Temper(Untemper(z)) == z
  {
    hide TemperFirst, TemperSecond, TemperThird, TemperLast, UndoFirst, UndoSecond;
    var x3 := TemperLast(z);
    var x2 := TemperThird(x3);
    var x1 := UndoSecond(x2);
    FirstRedone(x1);
    SecondRedone(x2);
    ThirdInvolution(x3);
    LastInvolution(z);
  }

  /** Tempering is a bijection on 64-bit words: two state words give the
      same output exactly when they are equal. */
  lemma TemperInjective(a: bv64, b: bv64)
    ensures Temper(a) == Temper(b) <==> a == b
  {
    hide Temper, Untemper;
    UntemperTemper(a);
    UntemperTemper(b);
  }
}
