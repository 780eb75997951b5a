/** Real products as a function, so that equal operands give equal products. */
module Reals {
  function Mul(a: real, b: real): real { a * b }

  lemma MulAssociates(a: real, b: real, c: real)
    ensures Mul(Mul(a, b), c) == Mul(a, Mul(b, c))
  {
  }

  lemma MulCommutes(a: real, b: real)
    ensures Mul(a, b) == Mul(b, a)
  {
  }

  lemma MulExchanges(a: real, b: real, c: real)
    ensures Mul(a, Mul(b, c)) == Mul(b, Mul(a, c))
  {
    hide Mul;
    MulAssociates(a, b, c);
    MulAssociates(b, a, c);
    MulCommutes(a, b);
  }

  lemma MulDistributes(a: real, b: real, c: real)
    ensures Mul(a, b + c) == Mul(a, b) + Mul(a, c)
    ensures Mul(b + c, a) == Mul(b, a) + Mul(c, a)
  {
  }

  lemma MulUnits(a: real)
    ensures Mul(a, 0.0) == 0.0 == Mul(0.0, a)
    ensures Mul(a, 1.0) == a == Mul(1.0, a)
  {
  }

  function RealPower(x: real, n: nat): real {
    if n == 0 then 1.0 else Mul(x, RealPower(x, n - 1))
  }
}
