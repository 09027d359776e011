/** uint64 arithmetic. */
module Words {
  const MODULUS: int := 0x1_0000_0000_0000_0000

  type U64 = n: int | 0 <= n < MODULUS

  function Wrap(n: int): U64 { n % MODULUS }

  function Sub(a: U64, b: U64): U64 { Wrap(a - b) }

  function Add(a: U64, b: U64): U64 { Wrap(a + b) }

  /** A wrapped difference of wrapped counters is the true one, if that fits. */
  lemma WrappedDifference(a: int, b: int)
    requires 0 <= a - b < MODULUS
    ensures Sub(Wrap(a), Wrap(b)) == a - b
  {
    assert a == (a / MODULUS) * MODULUS + Wrap(a) && b == (b / MODULUS) * MODULUS + Wrap(b);
    WrapShift(a - b, b / MODULUS - a / MODULUS);
  }

  lemma WrapShift(n: int, k: int)
    requires 0 <= n < MODULUS
    ensures Wrap(n + k * MODULUS) == n
  {}

  lemma WrapAddBoth(a: int, b: int)
    ensures Add(Wrap(a), Wrap(b)) == Wrap(a + b)
  {}
}
