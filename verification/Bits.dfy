/** Shifts and leading bits of unsigned words, as arithmetic. */
module Bits {

  function Pow2(n: nat): (p: nat)
    ensures p >= 1
  {
    if n == 0 then 1 else 2 * Pow2(n - 1)
  }

  lemma {:induction false} Pow2Monotone(a: nat, b: nat)
    requires a <= b
    ensures Pow2(a) <= Pow2(b)
  {
    if a < b {
      Pow2Monotone(a, b - 1);
    }
  }

  lemma {:induction false} Pow2Add(a: nat, b: nat)
    ensures Pow2(a + b) == Pow2(a) * Pow2(b)
  {
    if a > 0 {
      Pow2Add(a - 1, b);
    }
  }

  /** The position of the leading bit: `63 - v.leading_zeros()`. */
  function Log2(v: nat): (octave: nat)
    requires v > 0
    ensures Pow2(octave) <= v < Pow2(octave + 1)
  {
    if v == 1 then 0 else Log2(v / 2) + 1
  }

  lemma Log2Unique(v: nat, octave: nat)
    requires Pow2(octave) <= v < Pow2(octave + 1)
    ensures v > 0 && Log2(v) == octave
  {
    if Log2(v) < octave {
      Pow2Monotone(Log2(v) + 1, octave);
    } else if octave < Log2(v) {
      Pow2Monotone(octave + 1, Log2(v));
    }
  }
}
