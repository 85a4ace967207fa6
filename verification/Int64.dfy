/** Go's int64: a bounded integer whose addition wraps modulo 2^64. */
module Int64 {

  const TWO_TO_THE_64: int := 0x1_0000_0000_0000_0000
  const MIN: int := -0x8000_0000_0000_0000
  const MAX: int := 0x7FFF_FFFF_FFFF_FFFF

  type int64 = x: int | MIN <= x <= MAX

  /** The int64 that represents x, as Go's two's complement arithmetic leaves it. */
  function Wrap(x: int): (r: int64)
    ensures MIN <= x <= MAX ==> r == x
  {
    (x - MIN) % TWO_TO_THE_64 + MIN
  }

  /** x and y differ by a multiple of 2^64. */
  predicate Congruent(x: int, y: int) {
    (x - y) % TWO_TO_THE_64 == 0
  }

  lemma WrapCongruent(x: int)
    ensures Congruent(Wrap(x), x)
  {
    assert Wrap(x) - x == -((x - MIN) / TWO_TO_THE_64) * TWO_TO_THE_64;
  }

  lemma CongruentWitness(x: int, y: int) returns (k: int)
    requires Congruent(x, y)
    ensures x == y + k * TWO_TO_THE_64
  {
    k := (x - y) / TWO_TO_THE_64;
  }

  /** Two integers have the same int64 representative exactly when they are congruent. */
  lemma WrapEqualIffCongruent(x: int, y: int)
    ensures Wrap(x) == Wrap(y) <==> Congruent(x, y)
  {
    if Congruent(x, y) {
      var k := CongruentWitness(x, y);
      assert x - MIN == y - MIN + k * TWO_TO_THE_64;
    }
  }

  /** Wrapping each partial sum gives the same result as wrapping once at the end. */
  lemma WrapAdd(x: int, y: int)
    ensures Wrap(Wrap(x) + y) == Wrap(x + y)
  {
    WrapCongruent(x);
    WrapEqualIffCongruent(Wrap(x) + y, x + y);
  }

  /** One past the top is the bottom. */
  lemma Bounds()
    ensures MIN == -9223372036854775808 && MAX == 9223372036854775807
    ensures Wrap(9223372036854775808) == -9223372036854775808 && Wrap(-9223372036854775809) == 9223372036854775807
  {}
}
