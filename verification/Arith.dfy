/** Division and products of unknown size. */
module Arith {
  lemma MulAtLeast(p: int, q: int)
    requires p >= 1
    ensures q >= 0 ==> p * q >= q
    ensures q < 0 ==> p * q <= -p
  {}

  lemma DivUnique(a: int, d: int, q: int, r: int)
    requires d > 0 && a == d * q + r && 0 <= r < d
    ensures a / d == q && a % d == r
  {
    var k := q - a / d;
    assert d * k == a % d - r by {
      assert d * q - d * (a / d) == d * k;
    }
    MulAtLeast(d, k);
    MulAtLeast(d, -k);
    assert d * k == -(d * -k);
    NoMultiple(d, k);
  }

  lemma NoMultiple(d: int, k: int)
    requires d > 0 && -d < d * k < d
    ensures k == 0
  {}
}
