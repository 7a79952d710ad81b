/** Arithmetic of uint64_t. */
module Unsigned {

  const TWO_TO_THE_64 := 0x1_0000_0000_0000_0000

  /** Sums wrap around. */
  function Unsigned64(x: int): (r: nat)
    ensures r < TWO_TO_THE_64
  {
    x % TWO_TO_THE_64
  }

  lemma UnsignedAdd(x: int, y: int)
    ensures Unsigned64(Unsigned64(x) + y) == Unsigned64(x + y)
  {
  }

  lemma UnsignedSmall(x: nat)
    requires x < TWO_TO_THE_64
    ensures Unsigned64(x) == x
  {
  }
}
