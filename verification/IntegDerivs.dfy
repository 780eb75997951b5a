/** Integrating a scalar decision rule over future shocks, at a scale of the shocks other than zero. */
module IntegDerivsModule {
  import opened Reals
  import opened RealSums
  import opened DoubleSums
  import opened DividedPowers
  import opened MultiIndices

  /** Derivatives of g by the state, the shocks and the scale. */
  type Derivs = map<(nat, nat, nat), real>

  /** All derivatives are of some dimension from one to maxd. */
  ghost predicate Within(g: Derivs, maxd: nat) {
    forall i: nat, j: nat, k: nat :: (i, j, k) in g ==> 1 <= i + j + k <= maxd
  }

  /** A derivative that is not there is zero. */
  function At(g: Derivs, i: nat, j: nat, k: nat): real {
    if (i, j, k) in g then g[(i, j, k)] else 0.0
  }

  function IsEven(n: nat): bool {
    n % 2 == 0
  }

  /** The j-th moment of the shock: odd ones are zero. */
  function Moment(mom: nat -> real, j: nat): real {
    if j == 0 then 1.0 else if IsEven(j) then mom(j) else 0.0
  }

  /** The derivatives i times by the state, times the moments: by the shock j times and by the scale k times. */
  function Weighted(g: Derivs, mom: nat -> real, i: nat): Table {
    (j: nat, k: nat) => Mul(At(g, i, j, k), Moment(mom, j))
  }

  // ----- the expectation -----

  /** The terms of the Taylor polynomial by the shock and the scale, for shocks scaled by x + s. */
  function Expected(b: Table, x: real, s: real): Table {
    (k: nat, j: nat) => Mul(DividedPower(s, k), Mul(b(j, k), DividedPower(x + s, j)))
  }

  // ----- the integrated derivatives -----

  /** For a derivative by n + k scales of which n come from the shocks, the terms by the number of other shocks. */
  function Others(b: Table, x: real, n: nat, k: nat): nat -> real {
    (m: nat) => Mul(b(m + n, k), DividedPower(x, m))
  }

  function Chosen(b: Table, x: real, size: nat): Table {
    (n: nat, k: nat) => Mul(Choose(n + k, n) as real, Sum(Others(b, x, n, k), 0, size))
  }

  /** The derivative of the integrated rule p times by the scale. */
  function Integrated(b: Table, x: real, size: nat, p: nat): real {
    Diagonals(Chosen(b, x, size))(p)
  }

  function IntegratedTerms(b: Table, x: real, s: real, size: nat): nat -> real {
    (p: nat) => Mul(DividedPower(s, p), Integrated(b, x, size, p))
  }

  // ----- one power of the state -----

  /** The terms by shocks from the scale and other shocks, for k derivatives by the scale. */
  function Mixed(b: Table, x: real, s: real, k: nat): Table {
    (n: nat, m: nat) => Mul(b(m + n, k), Mul(DividedPower(x, m), DividedPower(s, n)))
  }

  function ExpectedRow(b: Table, x: real, s: real, k: nat): nat -> real {
    (j: nat) => Mul(b(j, k), DividedPower(x + s, j))
  }

  lemma MixedDiagonal(b: Table, x: real, s: real, k: nat, j: nat)
    ensures Diagonals(Mixed(b, x, s, k))(j) == ExpectedRow(b, x, s, k)(j)
  {
    hide Mul, DividedPower;
    Binomial(x, s, j);
    var parts, mixed := Diagonal(Parts(x, s), j), Diagonal(Mixed(b, x, s, k), j);
    forall n: nat | n < j + 1
      ensures mixed(n) == Mul(b(j, k), parts(n))
    {
      assert j - n + n == j;
    }
    SumScale(b(j, k), parts, mixed, 0, j + 1);
  }

  /** The terms of the expectation with k derivatives by the scale. */
  lemma ExpectedIsMixed(b: Table, x: real, s: real, size: nat, k: nat)
    requires Triangular(b, size)
    ensures Sum(Along(Expected(b, x, s), k), 0, size) == Mul(DividedPower(s, k), Rectangle(Mixed(b, x, s, k), size, size))
  {
    hide Mul, DividedPower;
    var mixed := Mixed(b, x, s, k);
    assert Triangular(mixed, size) by { MixedTriangular(b, x, s, k, size); }
    TriangleSum(mixed, size);
    forall j: nat | j < size
      ensures Diagonals(mixed)(j) == ExpectedRow(b, x, s, k)(j)
    {
      MixedDiagonal(b, x, s, k, j);
    }
    SumSame(Diagonals(mixed), ExpectedRow(b, x, s, k), 0, size);
    SumScale(DividedPower(s, k), ExpectedRow(b, x, s, k), Along(Expected(b, x, s), k), 0, size);
  }

  lemma MixedTriangular(b: Table, x: real, s: real, k: nat, size: nat)
    requires Triangular(b, size)
    ensures Triangular(Mixed(b, x, s, k), size)
  {
    hide Mul, DividedPower;
    forall n: nat, m: nat | n + m >= size
      ensures Mixed(b, x, s, k)(n, m) == 0.0
    {
      assert b(m + n, k) == 0.0;
      MulUnits(Mul(DividedPower(x, m), DividedPower(s, n)));
    }
  }

  /** The terms of the integrated rule by the shocks from the scale and the derivatives by it. */
  function Spread(b: Table, x: real, s: real, size: nat): Table {
    (n: nat, k: nat) => Mul(DividedPower(s, n + k), Chosen(b, x, size)(n, k))
  }

  lemma SpreadDiagonal(b: Table, x: real, s: real, size: nat, p: nat)
    ensures Diagonals(Spread(b, x, s, size))(p) == IntegratedTerms(b, x, s, size)(p)
  {
    hide Mul, DividedPower, Chosen;
    var spread, chosen := Diagonal(Spread(b, x, s, size), p), Diagonal(Chosen(b, x, size), p);
    forall n: nat | n < p + 1
      ensures spread(n) == Mul(DividedPower(s, p), chosen(n))
    {
      assert n + (p - n) == p;
    }
    SumScale(DividedPower(s, p), chosen, spread, 0, p + 1);
  }

  lemma SpreadTriangular(b: Table, x: real, s: real, size: nat)
    requires Triangular(b, size)
    ensures Triangular(Spread(b, x, s, size), size)
  {
    hide Mul, DividedPower;
    forall n: nat, k: nat | n + k >= size
      ensures Spread(b, x, s, size)(n, k) == 0.0
    {
      forall m: nat | m < size
        ensures Others(b, x, n, k)(m) == 0.0
      {
        assert b(m + n, k) == 0.0;
        MulUnits(DividedPower(x, m));
      }
      SumZero(Others(b, x, n, k), 0, size);
      MulUnits(Choose(n + k, n) as real);
      assert Chosen(b, x, size)(n, k) == 0.0;
      MulUnits(DividedPower(s, n + k));
    }
  }

  /** Both ways to sum up, for k derivatives by the scale. */
  lemma SpreadIsMixed(b: Table, x: real, s: real, size: nat, k: nat)
    ensures Sum(Along(Flip(Spread(b, x, s, size)), k), 0, size) == Mul(DividedPower(s, k), Rectangle(Mixed(b, x, s, k), size, size))
  {
    hide Mul, DividedPower;
    forall n: nat | n < size
      ensures Along(Flip(Spread(b, x, s, size)), k)(n) == Mul(DividedPower(s, k), RowSums(Mixed(b, x, s, k), size)(n))
    {
      SpreadCell(b, x, s, size, n, k);
    }
    SumScale(DividedPower(s, k), RowSums(Mixed(b, x, s, k), size), Along(Flip(Spread(b, x, s, size)), k), 0, size);
  }

  lemma SpreadCell(b: Table, x: real, s: real, size: nat, n: nat, k: nat)
    ensures Spread(b, x, s, size)(n, k) == Mul(DividedPower(s, k), Sum(Along(Mixed(b, x, s, k), n), 0, size))
  {
    hide Mul, DividedPower;
    var sn, sk, others, row := DividedPower(s, n), DividedPower(s, k), Others(b, x, n, k), Along(Mixed(b, x, s, k), n);
    forall m: nat | m < size
      ensures row(m) == Mul(sn, others(m))
    {
      MulCommutes(DividedPower(x, m), sn);
      MulExchanges(b(m + n, k), sn, DividedPower(x, m));
    }
    SumScale(sn, others, row, 0, size);
    var total, c, snk := Sum(others, 0, size), Choose(n + k, n) as real, DividedPower(s, n + k);
    PowerProduct(s, n, k);
    MulAssociates(snk, c, total);
    MulCommutes(snk, c);
    MulCommutes(sn, sk);
    MulAssociates(sk, sn, total);
    assert Chosen(b, x, size)(n, k) == Mul(c, total);
    assert Spread(b, x, s, size)(n, k) == Mul(snk, Mul(c, total));
  }

  /** For one power of the state, the integrated rule is the expectation. */
  lemma SliceIntegrates(b: Table, x: real, s: real, size: nat)
    requires Triangular(b, size)
    ensures Rectangle(Expected(b, x, s), size, size) == Sum(IntegratedTerms(b, x, s, size), 0, size)
  {
    hide Mul, DividedPower;
    var spread := Spread(b, x, s, size);
    SpreadTriangular(b, x, s, size);
    TriangleSum(spread, size);
    forall p: nat | p < size
      ensures Diagonals(spread)(p) == IntegratedTerms(b, x, s, size)(p)
    {
      SpreadDiagonal(b, x, s, size, p);
    }
    SumSame(Diagonals(spread), IntegratedTerms(b, x, s, size), 0, size);
    Exchange(spread, size, size);
    forall k: nat | k < size
      ensures RowSums(Expected(b, x, s), size)(k) == RowSums(Flip(spread), size)(k)
    {
      ExpectedIsMixed(b, x, s, size, k);
      SpreadIsMixed(b, x, s, size, k);
    }
    SumSame(RowSums(Expected(b, x, s), size), RowSums(Flip(spread), size), 0, size);
  }

  lemma WeightedTriangular(g: Derivs, mom: nat -> real, maxd: nat, i: nat)
    requires Within(g, maxd)
    ensures Triangular(Weighted(g, mom, i), maxd + 1)
  {
    hide Mul;
    forall j: nat, k: nat | j + k >= maxd + 1
      ensures Weighted(g, mom, i)(j, k) == 0.0
    {
      assert (i, j, k) !in g;
      MulUnits(Moment(mom, j));
    }
  }

  // ----- all powers of the state -----

  function ExpectedByState(g: Derivs, mom: nat -> real, maxd: nat, x: real, y: real, s: real): nat -> real {
    (i: nat) => Mul(DividedPower(y, i), Rectangle(Expected(Weighted(g, mom, i), x, s), maxd + 1, maxd + 1))
  }

  /** The expectation over shocks scaled by x + s of the Taylor polynomial of g at state y and scale s: the sum over i, j, k of
      the derivative times the divided powers of y, x + s and s, times the j-th moment. */
  function Expectation(g: Derivs, mom: nat -> real, maxd: nat, x: real, y: real, s: real): real {
    Sum(ExpectedByState(g, mom, maxd, x, y, s), 0, maxd + 1)
  }

  function PolynomialRow(h: map<(nat, nat), real>, i: nat, s: real): nat -> real {
    (p: nat) => Mul(DividedPower(s, p), if (i, p) in h then h[(i, p)] else 0.0)
  }

  function PolynomialByState(h: map<(nat, nat), real>, maxd: nat, y: real, s: real): nat -> real {
    (i: nat) => Mul(DividedPower(y, i), Sum(PolynomialRow(h, i, s), 0, maxd + 1))
  }

  /** The Taylor polynomial of derivatives by the state and the scale. */
  function Polynomial(h: map<(nat, nat), real>, maxd: nat, y: real, s: real): real {
    Sum(PolynomialByState(h, maxd, y, s), 0, maxd + 1)
  }

  /** The container holds the integrated derivatives of every dimension from one to maxd. */
  ghost predicate Holds(h: map<(nat, nat), real>, g: Derivs, mom: nat -> real, maxd: nat, x: real) {
    && (forall i: nat, p: nat :: (i, p) in h <==> 1 <= i + p <= maxd)
    && (forall i: nat, p: nat :: (i, p) in h ==> h[(i, p)] == Integrated(Weighted(g, mom, i), x, maxd + 1, p))
  }

  /** The value of the expectation at y and s zero. */
  function ConstantTerm(g: Derivs, mom: nat -> real, maxd: nat, x: real): real {
    Integrated(Weighted(g, mom, 0), x, maxd + 1, 0)
  }

  /** A row of the integrated polynomial, with the constant term in row zero. */
  lemma RowIntegrates(h: map<(nat, nat), real>, g: Derivs, mom: nat -> real, maxd: nat, x: real, s: real, i: nat)
    requires Holds(h, g, mom, maxd, x) && Within(g, maxd) && i <= maxd
    ensures Sum(IntegratedTerms(Weighted(g, mom, i), x, s, maxd + 1), 0, maxd + 1) ==
      Sum(PolynomialRow(h, i, s), 0, maxd + 1) + (if i == 0 then ConstantTerm(g, mom, maxd, x) else 0.0)
  {
    hide Mul, DividedPower, Integrated;
    var full, stored := IntegratedTerms(Weighted(g, mom, i), x, s, maxd + 1), PolynomialRow(h, i, s);
    forall p: nat | p < maxd + 1 && (i, p) != (0, 0)
      ensures full(p) == stored(p)
    {
      if i + p > maxd { TooHigh(g, mom, maxd, x, i, p); }
    }
    SumFirst(full, 0, maxd + 1);
    SumFirst(stored, 0, maxd + 1);
    SumSame(full, stored, 1, maxd + 1);
    PowerZero(s);
    MulUnits(ConstantTerm(g, mom, maxd, x));
    MulUnits(1.0);
  }

  lemma TooHigh(g: Derivs, mom: nat -> real, maxd: nat, x: real, i: nat, p: nat)
    requires Within(g, maxd) && i + p > maxd
    ensures Integrated(Weighted(g, mom, i), x, maxd + 1, p) == 0.0
  {
    hide Mul, DividedPower;
    var b := Weighted(g, mom, i);
    var diagonal := Diagonal(Chosen(b, x, maxd + 1), p);
    forall n: nat | n < p + 1
      ensures diagonal(n) == 0.0
    {
      var k := p - n;
      forall m: nat | m < maxd + 1
        ensures Others(b, x, n, k)(m) == 0.0
      {
        assert (i, m + n, k) !in g;
        MulUnits(Moment(mom, m + n));
        MulUnits(DividedPower(x, m));
      }
      SumZero(Others(b, x, n, k), 0, maxd + 1);
      MulUnits(Choose(n + k, n) as real);
      assert Chosen(b, x, maxd + 1)(n, k) == 0.0;
    }
    SumZero(diagonal, 0, p + 1);
  }

  /** The polynomial of the integrated derivatives is the expectation of g for every state and scale, except for the
      constant term, which is not stored. */
  lemma IntegratesExpectation(h: map<(nat, nat), real>, g: Derivs, mom: nat -> real, maxd: nat, x: real, y: real, s: real)
    requires Holds(h, g, mom, maxd, x) && Within(g, maxd)
    ensures Expectation(g, mom, maxd, x, y, s) == Polynomial(h, maxd, y, s) + ConstantTerm(g, mom, maxd, x)
  {
    hide Mul, DividedPower, Expected, Weighted, PolynomialRow, ConstantTerm, IntegratedTerms, Holds;
    var left, right := ExpectedByState(g, mom, maxd, x, y, s), PolynomialByState(h, maxd, y, s);
    forall i: nat | i < maxd + 1
      ensures left(i) == right(i) + (if i == 0 then ConstantTerm(g, mom, maxd, x) else 0.0)
    {
      WeightedTriangular(g, mom, maxd, i);
      SliceIntegrates(Weighted(g, mom, i), x, s, maxd + 1);
      RowIntegrates(h, g, mom, maxd, x, s, i);
      PowerZero(y);
      MulUnits(Sum(PolynomialRow(h, 0, s), 0, maxd + 1) + ConstantTerm(g, mom, maxd, x));
      MulUnits(Sum(PolynomialRow(h, 0, s), 0, maxd + 1));
    }
    SumFirst(left, 0, maxd + 1);
    SumFirst(right, 0, maxd + 1);
    SumSame(left, right, 1, maxd + 1);
  }

  // ----- the container -----

  /** What the terms by n shocks from the scale have added up to. */
  function Collected(b: Table, x: real, size: nat, n: nat, k: nat, povern: nat): nat -> real {
    (m: nat) => Mul(Share(Mul(RealPower(x, m), povern as real), Factorial(m)), b(m + n, k))
  }

  lemma CollectedAt(b: Table, x: real, n: nat, k: nat, size: nat, m: nat)
    ensures Collected(b, x, size, n, k, Choose(n + k, n))(m) == Mul(Choose(n + k, n) as real, Others(b, x, n, k)(m))
  {
    hide Mul, RealPower, Share, Choose;
    var c, v := Choose(n + k, n) as real, b(m + n, k);
    ShareScaled(RealPower(x, m), c, Factorial(m));
    MulAssociates(c, DividedPower(x, m), v);
    MulCommutes(DividedPower(x, m), v);
  }

  lemma CollectedIsChosen(b: Table, x: real, size: nat, n: nat, k: nat, last: nat)
    requires last <= size && forall j: nat :: last + n <= j ==> b(j, k) == 0.0
    ensures Sum(Collected(b, x, size, n, k, Choose(n + k, n)), 0, last) == Chosen(b, x, size)(n, k)
  {
    hide Mul, DividedPower, Collected, Choose;
    var c, others, collected := Choose(n + k, n), Others(b, x, n, k), Collected(b, x, size, n, k, Choose(n + k, n));
    forall m: nat | m < last
      ensures collected(m) == Mul(c as real, others(m))
    {
      CollectedAt(b, x, n, k, size, m);
    }
    SumScale(c as real, others, collected, 0, last);
    SumSplit(others, 0, last, size);
    forall m: nat | last <= m < size
      ensures others(m) == 0.0
    {
      MulUnits(DividedPower(x, m));
    }
    SumZero(others, last, size);
  }

  lemma ShareScaled(a: real, c: real, n: nat)
    requires n > 0
    ensures Share(Mul(a, c), n) == Mul(c, Share(a, n))
  {
    hide Mul, Share;
    TimesShare(Mul(a, c), n);
    TimesShare(a, n);
    MulExchanges(n as real, c, Share(a, n));
    MulCommutes(a, c);
    CancelFactor(n, Share(Mul(a, c), n), Mul(c, Share(a, n)));
  }

  class IntegDerivs {
    /** The derivatives by the state and the scale. */
    var h: map<(nat, nat), real>

    /** Integrates the rule with derivatives g at scale atSigma. */
    constructor (g: Derivs, maxd: nat, mom: nat -> real, atSigma: real)
      requires Within(g, maxd)
      ensures Holds(h, g, mom, maxd, atSigma)
    {
      h := map[];
      new;
      hide Integrated, Weighted, Within;
      for d := 1 to maxd + 1
        invariant HoldsBelow(g, mom, maxd, atSigma, d, 0)
      {
        for i := 0 to d + 1
          invariant HoldsBelow(g, mom, maxd, atSigma, d, i)
        {
          var ten := Integrate(g, maxd, mom, atSigma, i, d - i);
          h := h[(i, d - i) := ten];
        }
        assert HoldsBelow(g, mom, maxd, atSigma, d + 1, 0);
      }
    }

    /** The derivatives of lower dimensions are done, and those of dimension d with less than i derivatives by the state. */
    ghost predicate HoldsBelow(g: Derivs, mom: nat -> real, maxd: nat, x: real, d: nat, i: nat)
      reads this
    {
      && (forall j: nat, p: nat :: (j, p) in h <==> 1 <= j + p && (j + p < d || (j + p == d && j < i)))
      && (forall j: nat, p: nat :: (j, p) in h ==> h[(j, p)] == Integrated(Weighted(g, mom, j), x, maxd + 1, p))
    }

    /** One derivative of the integrated rule. */
    method Integrate(g: Derivs, maxd: nat, mom: nat -> real, atSigma: real, i: nat, p: nat) returns (ten: real)
      requires Within(g, maxd) && i + p <= maxd
      ensures ten == Integrated(Weighted(g, mom, i), atSigma, maxd + 1, p)
    {
      hide Mul, Weighted, RealPower, Share, Factorial, Choose, Within;
      ghost var b := Weighted(g, mom, i);
      ghost var all := Diagonal(Chosen(b, atSigma, maxd + 1), p);
      ten := 0.0;
      for n := 0 to p + 1
        invariant ten == Sum(all, 0, n)
      {
        var k := p - n;
        var povern := Noverk(p, n);
        var part := IntegrateShocks(g, maxd, mom, atSigma, i, n, k, povern, ten);
        ten := part;
        SumLast(all, 0, n);
      }
    }

    function Noverk(n: nat, k: nat): nat {
      Choose(n, k)
    }

    /** Adds the terms with n shocks that come from the scale. */
    method IntegrateShocks(g: Derivs, maxd: nat, mom: nat -> real, atSigma: real, i: nat, n: nat, k: nat, povern: nat, start: real) returns (ten: real)
      requires Within(g, maxd) && i + n + k <= maxd && povern == Choose(n + k, n)
      ensures ten == start + Chosen(Weighted(g, mom, i), atSigma, maxd + 1)(n, k)
    {
      hide Mul, RealPower, Share, Factorial, Choose, Chosen;
      ghost var b := Weighted(g, mom, i);
      ghost var all := Collected(b, atSigma, maxd + 1, n, k, povern);
      ten := start;
      var mfac := 1;
      NoFactors();
      var m := 0;
      while i + m + n + k <= maxd
        invariant i + m + n + k <= maxd + 1 && mfac == Factorial(m)
        invariant ten == start + Sum(all, 0, m)
        decreases maxd + 1 - m
      {
        var mult := Share(Mul(RealPower(atSigma, m), povern as real), mfac);
        SumLast(all, 0, m);
        OneTerm(g, mom, i, m + n, k, mult);
        if m + n == 0 && (i, m + n, k) in g {
          ten := ten + Mul(mult, g[(i, m + n, k)]);
        }
        if m + n > 0 && IsEven(m + n) && (i, m + n, k) in g {
          var gtmp := Mul(g[(i, m + n, k)], mult);
          ten := ten + Mul(gtmp, mom(m + n));
        }
        NextFactor(m);
        m := m + 1;
        mfac := mfac * m;
      }
      TooManyShocks(g, mom, maxd, i, n, k, m);
      CollectedIsChosen(b, atSigma, maxd + 1, n, k, m);
    }
  }

  lemma NoFactors()
    ensures Factorial(0) == 1
  {
  }

  lemma NextFactor(m: nat)
    ensures Factorial(m + 1) == Factorial(m) * (m + 1)
  {
  }

  /** What one derivative of g adds. */
  lemma OneTerm(g: Derivs, mom: nat -> real, i: nat, j: nat, k: nat, mult: real)
    ensures Mul(mult, Weighted(g, mom, i)(j, k)) ==
      if (i, j, k) !in g || !IsEven(j) then 0.0
      else if j == 0 then Mul(mult, g[(i, j, k)])
      else Mul(Mul(g[(i, j, k)], mult), mom(j))
  {
    hide Mul;
    MulUnits(mult);
    MulUnits(Moment(mom, j));
    if (i, j, k) in g {
      var v := g[(i, j, k)];
      MulUnits(v);
      MulCommutes(v, mult);
      MulAssociates(mult, v, mom(j));
    }
  }

  lemma TooManyShocks(g: Derivs, mom: nat -> real, maxd: nat, i: nat, n: nat, k: nat, last: nat)
    requires Within(g, maxd) && i + last + n + k > maxd
    ensures forall j: nat :: last + n <= j ==> Weighted(g, mom, i)(j, k) == 0.0
  {
    hide Mul;
    forall j: nat | last + n <= j
      ensures Weighted(g, mom, i)(j, k) == 0.0
    {
      assert (i, j, k) !in g;
      MulUnits(Moment(mom, j));
    }
  }
}
