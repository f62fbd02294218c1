/** Arithmetic of Arduino's 32-bit `unsigned long`.
    Values are integers in [0, 2^32); every operation that can leave that
    range is reduced modulo 2^32, as C++ does for unsigned types. */
module Wrap32 {

  const Modulus: int := 0x1_0000_0000

  /** An `unsigned long` on an 8-bit or 32-bit Arduino. */
  newtype u32 = x: int | 0 <= x < 0x1_0000_0000

  /** Conversion of a mathematical integer to `unsigned long`: the unique
      value in range congruent to `x` modulo 2^32. */
  function Wrap(x: int): (r: u32)
    ensures 0 <= x < Modulus ==> r as int == x
    ensures (x - r as int) % Modulus == 0
  {
    (x % Modulus) as u32
  }

  /** C++ `a - b` on two `unsigned long` operands: the distance forward
      from `b` to `a` on the 2^32-tick circle. */
  function Sub(a: u32, b: u32): (r: u32)
    ensures Wrap(b as int + r as int) == a
    ensures b <= a ==> r == a - b
    ensures a < b ==> r as int == a as int - b as int + Modulus
  {
    Wrap(a as int - b as int)
  }

  /** Going forward `d` ticks from `b` (wrapping past the maximum if need be)
      and subtracting `b` again gives back `d`, for every `d` the counter can
      represent. */
  lemma SubOfForward(b: u32, d: int)
    requires 0 <= d < Modulus
    ensures Sub(Wrap(b as int + d), b) == d as u32
  {
  }

  /** `Sub(a, b)` is the only value that takes `b` to `a`. */
  lemma SubUnique(a: u32, b: u32, r: u32)
    requires Wrap(b as int + r as int) == a
    ensures r == Sub(a, b)
  {
  }
}
