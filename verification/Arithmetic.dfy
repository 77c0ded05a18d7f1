/** Numbers of a fixed width, and facts about products that the solver does not find by itself. */
module Arithmetic {
  // uint64_t arithmetic is modulo this.
  const TWO64: nat := 0x1_0000_0000_0000_0000

  type u64 = x: int | 0 <= x < TWO64

  function Min(a: int, b: int): int { if a < b then a else b }

  // A multiple of b that is not 0 is at least b away from 0.
  lemma AtLeastOnce(e: int, b: int)
    requires b > 0
    ensures e >= 1 ==> e * b >= b
    ensures e <= -1 ==> e * b <= -b
  {
    if e >= 1 {
      assert (e - 1) * b >= 0;
    } else if e <= -1 {
      assert (-1 - e) * b >= 0;
    }
  }
}
