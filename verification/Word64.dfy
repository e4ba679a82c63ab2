/** The 64-bit signed integer that libcdl calls cdl_int. */
module Word64 {

  const MODULUS: int := 0x1_0000_0000_0000_0000
  const MAX_INT: int := 0x7FFF_FFFF_FFFF_FFFF
  const MIN_INT: int := -0x8000_0000_0000_0000

  predicate InRange(x: int) {
    MIN_INT <= x <= MAX_INT
  }

  /** Two's complement wrap-around. */
  function Wrap(x: int): (r: int)
    ensures InRange(r)
    ensures InRange(x) ==> r == x
  {
    if InRange(x) then x else Reduce(x)
  }

  function Reduce(x: int): (r: int)
    ensures InRange(r)
    ensures InRange(x) ==> r == x
  {
    var m := x % MODULUS;
    if m > MAX_INT then m - MODULUS else m
  }

  lemma WrapIsCongruent(n: int)
    ensures (Wrap(n) - n) % MODULUS == 0
  {
    assert n == MODULUS * (n / MODULUS) + n % MODULUS;
    if !InRange(n) {
      var k := if n % MODULUS > MAX_INT then -(n / MODULUS) - 1 else -(n / MODULUS);
      assert Wrap(n) - n == MODULUS * k;
    }
  }

  lemma AddMultiples(x: int, y: int)
    requires x % MODULUS == 0 && y % MODULUS == 0
    ensures (x + y) % MODULUS == 0
  {
    assert x == MODULUS * (x / MODULUS) && y == MODULUS * (y / MODULUS);
    assert x + y == MODULUS * (x / MODULUS + y / MODULUS);
  }

  /** A word is determined by what it is congruent to. */
  lemma OneWord(v: int, x: int)
    requires InRange(v) && (v - x) % MODULUS == 0
    ensures v == Wrap(x)
  {
    WrapIsCongruent(x);
    NegatedMultiple(Wrap(x) - x);
    AddMultiples(v - x, -(Wrap(x) - x));
    SmallMultiple(v - Wrap(x));
  }

  lemma NegatedMultiple(y: int)
    requires y % MODULUS == 0
    ensures (-y) % MODULUS == 0
  {
    assert -y == MODULUS * -(y / MODULUS);
  }

  lemma SmallMultiple(d: int)
    requires -MODULUS < d < MODULUS && d % MODULUS == 0
    ensures d == 0
  {
  }
}
