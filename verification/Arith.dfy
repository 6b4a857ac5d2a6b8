/** Facts about products, division and powers of two that the solver does not find alone. */
module Arith {

  lemma Positive(a: nat, b: nat)
    requires a >= 1 && b >= 1
    ensures a * b >= 1
  {}

  function Power(b: nat, n: nat): (p: nat)
    ensures b >= 1 ==> p >= 1
  {
    if n == 0 then 1
    else
      assert b >= 1 ==> b * Power(b, n - 1) >= 1 by { if b >= 1 { Positive(b, Power(b, n - 1)); } }
      b * Power(b, n - 1)
  }

  lemma MulMonotone(a: int, b: int, c: nat)
    requires a <= b
    ensures a * c <= b * c
  {}

  lemma Assoc3(a: int, b: int, c: int)
    ensures a * b * c == a * (b * c)
  {}

  lemma DivModUnique(d: nat, q: nat, r: nat)
    requires r < d
    ensures (q * d + r) / d == q && (q * d + r) % d == r
  {
    var x := q * d + r;
    assert x == (x / d) * d + x % d;
    var e := x / d - q;
    assert e * d == r - x % d;
    if e >= 1 {
      MulMonotone(1, e, d);
      assert false;
    }
    if e <= -1 {
      MulMonotone(e, -1, d);
      assert false;
    }
  }

  lemma SmallMod(d: nat, r: nat)
    requires r < d
    ensures r / d == 0 && r % d == r
  {
    DivModUnique(d, 0, r);
  }
}
