/**
 Java's 32-bit `int`: the range of `Integer`/`int` values and the
 two's-complement wrap-around that `int` subtraction performs.
 */
module JavaInt {

  const MIN: int := -0x8000_0000
  const MAX: int := 0x7fff_ffff
  const MODULUS: int := 0x1_0000_0000

  /** The values of a Java `int`. */
  newtype int32 = x: int | -0x8000_0000 <= x < 0x8000_0000

  /** `x` and `y` are equal modulo 2^32, so Java `int` arithmetic cannot tell them apart. */
  predicate Congruent(x: int, y: int)
  {
    (x - y) % MODULUS == 0
  }

  /** Java's `a - b` on two `int`s: the exact difference, moved by 2^32 when it leaves the range. */
  function Sub(a: int32, b: int32): (r: int32)
    ensures MIN <= a as int - b as int <= MAX ==> r as int == a as int - b as int
    ensures || r as int == a as int - b as int
            || r as int == a as int - b as int + MODULUS
            || r as int == a as int - b as int - MODULUS
  {
    var d := a as int - b as int;
    if d < MIN then (d + MODULUS) as int32
    else if d > MAX then (d - MODULUS) as int32
    else d as int32
  }

  /** Java's subtraction agrees with exact subtraction modulo 2^32. */
  lemma SubCongruent(a: int32, b: int32)
    ensures Congruent(Sub(a, b) as int, a as int - b as int)
  {
    var d := Sub(a, b) as int - (a as int - b as int);
    assert d == 0 || d == MODULUS || d == -MODULUS;
  }

  /** Moving the right-hand side by at most one 2^32 step keeps congruence. */
  lemma CongruentStep(x: int, y: int, z: int)
    requires Congruent(x, y)
    requires y - z == 0 || y - z == MODULUS || y - z == -MODULUS
    ensures Congruent(x, z)
  {
    var k := (x - y) / MODULUS;
    assert x - y == k * MODULUS;
    if y - z == MODULUS {
      assert x - z == (k + 1) * MODULUS;
    } else if y - z == -MODULUS {
      assert x - z == (k - 1) * MODULUS;
    }
  }

  /** Two congruent values inside the `int` range are the same value. */
  lemma CongruentInRange(x: int, y: int)
    requires MIN <= x <= MAX && MIN <= y <= MAX
    requires Congruent(x, y)
    ensures x == y
  {
    var k := (x - y) / MODULUS;
    assert x - y == k * MODULUS;
  }
}
