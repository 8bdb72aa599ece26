/** Go's built-in `int` on a 64-bit platform: two's-complement, 64 bits wide,
    and silently wrapping on overflow. Dafny's `int` is unbounded, so every
    Go addition or subtraction that can leave the range goes through `Wrap`. */
module GoInt {

  const Modulus: int := 0x1_0000_0000_0000_0000
  const MinInt: int := -0x8000_0000_0000_0000
  const MaxInt: int := 0x7FFF_FFFF_FFFF_FFFF

  predicate InRange(x: int) {
    MinInt <= x <= MaxInt
  }

  /** The values a Go `int` (and a Redis integer) can hold. */
  type Int64 = x: int | InRange(x)

  /** The Go value of an arithmetic result: the unique 64-bit value congruent
      to `x` modulo 2^64. */
  function Wrap(x: int): (r: Int64)
    ensures InRange(x) ==> r == x
    ensures (x - r) % Modulus == 0
  {
    var k := (x - MinInt) / Modulus;
    assert x - MinInt == k * Modulus + (x - MinInt) % Modulus;
    (x - MinInt) % Modulus + MinInt
  }

  /** Two values in range that agree modulo 2^64 are equal, so `Wrap` is the
      only function meeting its own contract. */
  lemma WrapUnique(x: int, r: int)
    requires InRange(r)
    requires (x - r) % Modulus == 0
    ensures r == Wrap(x)
  {
    var w := Wrap(x);
    assert ((x - r) - (x - w)) % Modulus == 0 by {
      ModDifference(x - r, x - w);
    }
    assert w - r == (x - r) - (x - w);
    assert -Modulus < w - r < Modulus;
  }

  lemma ModDifference(a: int, b: int)
    requires a % Modulus == 0 && b % Modulus == 0
    ensures (a - b) % Modulus == 0
  {
    assert a == (a / Modulus) * Modulus;
    assert b == (b / Modulus) * Modulus;
    assert a - b == (a / Modulus - b / Modulus) * Modulus;
  }
}
