/** Java's 32-bit two's-complement `int`: its range and its wrap-around. */
module Int32 {
  const MinInt: int := -0x8000_0000
  const MaxInt: int := 0x7fff_ffff
  const Modulus: int := 0x1_0000_0000

  predicate InRange(x: int) {
    MinInt <= x <= MaxInt
  }

  /** The value a Java `int` holds after an arithmetic result `x` wraps around. */
  function Wrap(x: int): (r: int)
    ensures InRange(r)
    ensures (r - x) % Modulus == 0
    ensures InRange(x) ==> r == x
  {
    (x - MinInt) % Modulus + MinInt
  }

  /** Wrapping an intermediate result does not change the final wrapped value. */
  lemma WrapAdd(x: int, y: int)
    ensures Wrap(x + Wrap(y)) == Wrap(x + y)
  {
  }
}
