/** Powers divided by factorials. */
module DividedPowers {
  import opened Reals
  import opened RealSums
  import opened DoubleSums
  import opened MultiIndices

  function Factorial(n: nat): (f: nat)
    ensures f > 0
  {
    if n == 0 then 1 else Factorial(n - 1) * n
  }

  function Share(x: real, n: nat): real
    requires n > 0
  {
    x / n as real
  }

  /** The n-th power of x over the factorial of n. */
  function DividedPower(x: real, n: nat): real {
    Share(RealPower(x, n), Factorial(n))
  }

  lemma TimesShare(x: real, n: nat)
    requires n > 0
    ensures Mul(n as real, Share(x, n)) == x
  {
  }

  lemma CancelFactor(n: nat, a: real, b: real)
    requires n > 0 && Mul(n as real, a) == Mul(n as real, b)
    ensures a == b
  {
  }

  lemma NatProduct(a: nat, b: nat)
    ensures (a * b) as real == Mul(a as real, b as real)
  {
  }

  lemma PowerZero(x: real)
    ensures DividedPower(x, 0) == 1.0
  {
  }

  /** n times the n-th divided power is x times the one before. */
  lemma PowerStep(x: real, n: nat)
    requires n > 0
    ensures Mul(n as real, DividedPower(x, n)) == Mul(x, DividedPower(x, n - 1))
  {
    hide Mul, Share;
    var f := Factorial(n - 1);
    TimesShare(RealPower(x, n), f * n);
    TimesShare(RealPower(x, n - 1), f);
    NatProduct(f, n);
    MulAssociates(f as real, n as real, DividedPower(x, n));
    MulExchanges(f as real, x, DividedPower(x, n - 1));
    MulCommutes(RealPower(x, n - 1), x);
    CancelFactor(f, Mul(n as real, DividedPower(x, n)), Mul(x, DividedPower(x, n - 1)));
  }

  /** The divided power of a sum: divided powers of its parts that add up to n. */
  function Parts(a: real, b: real): Table {
    (n: nat, m: nat) => Mul(DividedPower(a, m), DividedPower(b, n))
  }

  function FirstRaised(a: real, b: real, j: nat): nat -> real {
    (n: nat) => if n <= j then Mul((j - n) as real, Diagonal(Parts(a, b), j)(n)) else 0.0
  }

  function SecondRaised(a: real, b: real, j: nat): nat -> real {
    (n: nat) => Mul(n as real, Diagonal(Parts(a, b), j)(n))
  }

  lemma FirstAt(a: real, b: real, j: nat, n: nat)
    requires n < j
    ensures FirstRaised(a, b, j)(n) == Mul(a, Diagonal(Parts(a, b), j - 1)(n))
  {
    hide Mul, DividedPower;
    var m := j - n;
    assert Diagonal(Parts(a, b), j)(n) == Parts(a, b)(n, m) == Mul(DividedPower(a, m), DividedPower(b, n));
    assert FirstRaised(a, b, j)(n) == Mul(m as real, Mul(DividedPower(a, m), DividedPower(b, n)));
    assert Diagonal(Parts(a, b), j - 1)(n) == Mul(DividedPower(a, m - 1), DividedPower(b, n));
    PowerStep(a, m);
    MulAssociates(m as real, DividedPower(a, m), DividedPower(b, n));
    MulAssociates(a, DividedPower(a, m - 1), DividedPower(b, n));
  }

  lemma SecondAt(a: real, b: real, j: nat, n: nat)
    requires n < j
    ensures SecondRaised(a, b, j)(n + 1) == Mul(b, Diagonal(Parts(a, b), j - 1)(n))
  {
    hide Mul, DividedPower;
    var m, k := j - 1 - n, n + 1;
    assert Diagonal(Parts(a, b), j)(k) == Parts(a, b)(k, m) == Mul(DividedPower(a, m), DividedPower(b, k));
    assert SecondRaised(a, b, j)(k) == Mul(k as real, Mul(DividedPower(a, m), DividedPower(b, k)));
    assert Diagonal(Parts(a, b), j - 1)(n) == Mul(DividedPower(a, m), DividedPower(b, n));
    PowerStep(b, k);
    MulExchanges(k as real, DividedPower(a, m), DividedPower(b, k));
    MulExchanges(b, DividedPower(a, m), DividedPower(b, n));
  }

  lemma FirstLowered(a: real, b: real, j: nat)
    requires j > 0
    ensures Sum(FirstRaised(a, b, j), 0, j + 1) == Mul(a, Sum(Diagonal(Parts(a, b), j - 1), 0, j))
  {
    hide Mul, DividedPower, Diagonal;
    forall n: nat | n < j
      ensures FirstRaised(a, b, j)(n) == Mul(a, Diagonal(Parts(a, b), j - 1)(n))
    {
      FirstAt(a, b, j, n);
    }
    SumScale(a, Diagonal(Parts(a, b), j - 1), FirstRaised(a, b, j), 0, j);
    SumLast(FirstRaised(a, b, j), 0, j);
    MulUnits(Diagonal(Parts(a, b), j)(j));
  }

  lemma SecondLowered(a: real, b: real, j: nat)
    requires j > 0
    ensures Sum(SecondRaised(a, b, j), 0, j + 1) == Mul(b, Sum(Diagonal(Parts(a, b), j - 1), 0, j))
  {
    hide Mul, DividedPower, Diagonal;
    var before, after := Diagonal(Parts(a, b), j - 1), SecondRaised(a, b, j);
    var scaled := (n: nat) => Mul(b, before(n));
    forall n: nat | n < j
      ensures after(n + 1) == scaled(n)
    {
      SecondAt(a, b, j, n);
    }
    SumShift(scaled, after, 0, j, 1);
    SumScale(b, before, scaled, 0, j);
    SumFirst(after, 0, j + 1);
    MulUnits(Diagonal(Parts(a, b), j)(0));
  }

  /** The binomial theorem. */
  lemma {:induction false} Binomial(a: real, b: real, j: nat)
    ensures Diagonals(Parts(a, b))(j) == DividedPower(a + b, j)
    decreases j
  {
    hide Mul, DividedPower, Diagonal, Parts, FirstRaised, SecondRaised;
    var all := Diagonal(Parts(a, b), j);
    if j == 0 {
      NoParts(a, b);
    } else {
      Binomial(a, b, j - 1);
      FirstLowered(a, b, j);
      SecondLowered(a, b, j);
      TimesParts(a, b, j);
      MulDistributes(DividedPower(a + b, j - 1), a, b);
      PowerStep(a + b, j);
      CancelFactor(j, Sum(all, 0, j + 1), DividedPower(a + b, j));
    }
  }

  lemma NoParts(a: real, b: real)
    ensures Diagonals(Parts(a, b))(0) == DividedPower(a + b, 0)
  {
    hide DividedPower;
    PowerZero(a);
    PowerZero(b);
    PowerZero(a + b);
    SumLast(Diagonal(Parts(a, b), 0), 0, 0);
    SumEmpty(Diagonal(Parts(a, b), 0), 0);
  }

  lemma TimesParts(a: real, b: real, j: nat)
    ensures Mul(j as real, Sum(Diagonal(Parts(a, b), j), 0, j + 1)) == Sum(FirstRaised(a, b, j), 0, j + 1) + Sum(SecondRaised(a, b, j), 0, j + 1)
  {
    hide Mul, DividedPower, Diagonal;
    var all := Diagonal(Parts(a, b), j);
    var times := (n: nat) => Mul(j as real, all(n));
    forall n: nat | n < j + 1
      ensures times(n) == FirstRaised(a, b, j)(n) + SecondRaised(a, b, j)(n)
    {
      MulDistributes(all(n), (j - n) as real, n as real);
      assert (j - n) as real + n as real == j as real;
    }
    SumPlus(FirstRaised(a, b, j), SecondRaised(a, b, j), times, 0, j + 1);
    SumScale(j as real, all, times, 0, j + 1);
  }

  /** The product of two divided powers. */
  lemma {:induction false} PowerProduct(x: real, n: nat, k: nat)
    ensures Mul(DividedPower(x, n), DividedPower(x, k)) == Mul(Choose(n + k, n) as real, DividedPower(x, n + k))
    decreases n + k
  {
    hide Mul, DividedPower;
    PowerZero(x);
    if n == 0 || k == 0 {
      ChooseEnds(n + k);
      MulUnits(DividedPower(x, n + k));
    } else {
      var t, l, r := n + k, Mul(DividedPower(x, n), DividedPower(x, k)), Mul(Choose(n + k, n) as real, DividedPower(x, n + k));
      PowerProduct(x, n - 1, k);
      PowerProduct(x, n, k - 1);
      PowerStep(x, n);
      PowerStep(x, k);
      PowerStep(x, t);
      MulDistributes(l, n as real, k as real);
      MulAssociates(n as real, DividedPower(x, n), DividedPower(x, k));
      MulAssociates(x, DividedPower(x, n - 1), DividedPower(x, k));
      MulExchanges(k as real, DividedPower(x, n), DividedPower(x, k));
      MulExchanges(x, DividedPower(x, n), DividedPower(x, k - 1));
      var c, d, p := Choose(t - 1, n - 1) as real, Choose(t - 1, n) as real, DividedPower(x, t - 1);
      assert Choose(t, n) as real == c + d;
      MulExchanges(t as real, c + d, DividedPower(x, t));
      MulExchanges(c + d, x, p);
      MulDistributes(p, c, d);
      MulDistributes(x, Mul(c, p), Mul(d, p));
      CancelFactor(t, l, r);
    }
  }
}
