/** How evenly consecutive radical inverses fill the unit interval. */
module Equidistribution {
  import opened Reals
  import opened RadicalInverses

  /** What the digit of n at place i contributes to a cell number of m digits. */
  function First(s: PermutationScheme, b: nat, i: nat, m: nat, n: nat): nat
    requires b >= 2 && m > 0
  {
    s.Permute(i, b, Rem(n, b)) * Power(b, m - 1)
  }

  /** The cell of width 1/b^m that the point of n lies in: its first m digits, as far as n has digits. */
  function Hit(s: PermutationScheme, b: nat, i: nat, m: nat, n: nat): nat
    requires b >= 2
    decreases m
  {
    if m == 0 then 0
    else First(s, b, i, m, n) + (if n < b then 0 else Hit(s, b, i + 1, m - 1, Quot(n, b)))
  }

  /** The cell when the leading zeros of n are permuted as well. */
  function Cell(s: PermutationScheme, b: nat, i: nat, m: nat, n: nat): nat
    requires b >= 2
    decreases m
  {
    if m == 0 then 0 else First(s, b, i, m, n) + Cell(s, b, i + 1, m - 1, Quot(n, b))
  }

  /** Cell k of the unit interval divided into p cells. */
  ghost predicate InCell(x: real, k: nat, p: nat)
    requires p > 0
  {
    k as real / p as real <= x < (k + 1) as real / p as real
  }

  // ----- the point lies in its cell -----

  lemma {:induction false} PointInUnit(s: PermutationScheme, b: nat, i: nat, n: nat)
    requires b >= 2
    ensures 0.0 <= Point(s, b, i, n) < 1.0
    decreases n
  {
    var c := s.Permute(i, b, Rem(n, b));
    if n >= b {
      PointInUnit(s, b, i + 1, Quot(n, b));
      UnitQuotient(c, b, Point(s, b, i + 1, Quot(n, b)));
    } else {
      UnitQuotient(c, b, 0.0);
    }
  }

  lemma UnitQuotient(c: nat, b: nat, x: real)
    requires c < b && 0.0 <= x < 1.0
    ensures 0.0 <= (c as real + x) / b as real < 1.0
  {
    hide Mul;
    var y := (c as real + x) / b as real;
    TimesQuotient(c as real + x, b as real);
    MulSign(b as real, y);
    MulSign(b as real, y - 1.0);
    MulDistributes(b as real, y - 1.0, 1.0);
    MulUnits(b as real);
  }

  lemma TimesQuotient(a: real, b: real)
    requires b > 0.0
    ensures Mul(b, a / b) == a
  {
  }

  lemma MulSign(a: real, b: real)
    requires a > 0.0
    ensures b >= 0.0 <==> Mul(a, b) >= 0.0
    ensures b > 0.0 <==> Mul(a, b) > 0.0
  {
    if b > 0.0 { Positive(a, b); } else if b < 0.0 { Positive(a, -b); }
  }

  lemma Positive(a: real, b: real)
    requires a > 0.0 && b > 0.0
    ensures a * b > 0.0
  {
  }

  /** The point times b^m lies between its cell and the next one. */
  lemma {:induction false} PointScaled(s: PermutationScheme, b: nat, i: nat, m: nat, n: nat)
    requires b >= 2
    ensures Hit(s, b, i, m, n) as real <= Mul(Power(b, m) as real, Point(s, b, i, n)) < Hit(s, b, i, m, n) as real + 1.0
    decreases m
  {
    hide Quot, Rem;
    hide Mul;
    if m == 0 {
      PointInUnit(s, b, i, n);
      MulUnits(Point(s, b, i, n));
    } else {
      var c, p := s.Permute(i, b, Rem(n, b)), Power(b, m - 1);
      var x := if n < b then 0.0 else Point(s, b, i + 1, Quot(n, b));
      ScaledSum(c, p, b, x);
      if n < b {
        MulUnits(p as real);
      } else {
        PointScaled(s, b, i + 1, m - 1, Quot(n, b));
      }
    }
  }

  lemma ScaledSum(c: nat, p: nat, b: nat, x: real)
    requires b > 0
    ensures Mul((b * p) as real, (c as real + x) / b as real) == (c * p) as real + Mul(p as real, x)
  {
    hide Mul;
    var y := (c as real + x) / b as real;
    TimesQuotient(c as real + x, b as real);
    RealProduct(b, p);
    RealProduct(c, p);
    MulCommutes(b as real, p as real);
    MulAssociates(p as real, b as real, y);
    MulDistributes(p as real, c as real, x);
    MulCommutes(c as real, p as real);
  }

  lemma RealProduct(a: nat, b: nat)
    ensures (a * b) as real == Mul(a as real, b as real)
  {
  }

  /** The point of n lies in the cell it hits, and in no other one. */
  lemma PointInCell(s: PermutationScheme, b: nat, m: nat, n: nat, k: nat)
    requires b >= 2
    ensures Power(b, m) > 0
    ensures InCell(Point(s, b, 0, n), k, Power(b, m)) <==> k == Hit(s, b, 0, m, n)
  {
    PowerPositive(b, m);
    PointScaled(s, b, 0, m, n);
    ScaledCell(Point(s, b, 0, n), k, Power(b, m));
  }

  lemma ScaledCell(x: real, k: nat, p: nat)
    requires p > 0
    ensures InCell(x, k, p) <==> k as real <= Mul(p as real, x) < (k + 1) as real
  {
    Quotients(x, k as real, p as real);
    Quotients(x, (k + 1) as real, p as real);
  }

  lemma Quotients(x: real, k: real, p: real)
    requires p > 0.0
    ensures k / p <= x <==> k <= Mul(p, x)
  {
    hide Mul;
    TimesQuotient(k, p);
    MulDistributes(p, x - k / p, k / p);
    MulSign(p, x - k / p);
  }

  // ----- every cell comes from one remainder -----

  lemma {:induction false} CellBound(s: PermutationScheme, b: nat, i: nat, m: nat, n: nat)
    requires b >= 2
    ensures Cell(s, b, i, m, n) < Power(b, m) && Hit(s, b, i, m, n) < Power(b, m)
    decreases m
  {
    hide Quot, Rem;
    if m > 0 {
      CellBound(s, b, i + 1, m - 1, Quot(n, b));
      PowerPositive(b, m - 1);
      Odometers.MulLess(s.Permute(i, b, Rem(n, b)), b, Power(b, m - 1));
    }
  }

  /** The remainder by b^m of the numbers in cell k. */
  function Remainder(s: PermutationScheme, b: nat, i: nat, m: nat, k: nat): nat
    requires b >= 2
    decreases m
  {
    if m == 0 || Power(b, m - 1) == 0 || Quot(k, Power(b, m - 1)) >= b then 0
    else s.Restore(i, b, Quot(k, Power(b, m - 1))) + b * Remainder(s, b, i + 1, m - 1, Rem(k, Power(b, m - 1)))
  }

  lemma {:induction false} CellOfRemainder(s: PermutationScheme, b: nat, i: nat, m: nat, n: nat, k: nat)
    requires b >= 2 && k < Power(b, m)
    ensures Power(b, m) > 0 && (Cell(s, b, i, m, n) == k <==> Rem(n, Power(b, m)) == Remainder(s, b, i, m, k))
    ensures Remainder(s, b, i, m, k) < Power(b, m)
    decreases m
  {
    hide Quot, Rem;
    hide PermutationScheme.Permute, PermutationScheme.Restore, Cell, Remainder, Power;
    PowerPositive(b, m);
    if m == 0 {
      NoDigits(s, b, i, n, k);
    } else {
      var p := Power(b, m - 1);
      PowerPositive(b, m - 1);
      PowerStep(b, m);
      var q, r, h, t := Quot(k, p), Rem(k, p), Rem(Quot(n, b), p), Rem(n, b);
      QuotientBelow(k, p, b);
      CellOfRemainder(s, b, i + 1, m - 1, Quot(n, b), r);
      CellBound(s, b, i + 1, m - 1, Quot(n, b));
      CellStep(s, b, i, m, n);
      RemainderStep(s, b, i, m, k);
      s.PermuteOnce(i, b, t, q);
      SplitRemainder(n, b, p);
      BothSplit(s.Permute(i, b, t), Cell(s, b, i + 1, m - 1, Quot(n, b)), q, r, p, h, t, Remainder(s, b, i + 1, m - 1, r), s.Restore(i, b, q), b);
      Divided(k, p);
    }
  }

  lemma NoDigits(s: PermutationScheme, b: nat, i: nat, n: nat, k: nat)
    requires b >= 2 && k < Power(b, 0)
    ensures Power(b, 0) == 1 && Cell(s, b, i, 0, n) == k && Rem(n, 1) == Remainder(s, b, i, 0, k)
  {
  }

  lemma CellStep(s: PermutationScheme, b: nat, i: nat, m: nat, n: nat)
    requires b >= 2 && m > 0
    ensures Cell(s, b, i, m, n) == s.Permute(i, b, Rem(n, b)) * Power(b, m - 1) + Cell(s, b, i + 1, m - 1, Quot(n, b))
  {
  }

  lemma RemainderStep(s: PermutationScheme, b: nat, i: nat, m: nat, k: nat)
    requires b >= 2 && m > 0 && Power(b, m - 1) > 0 && Quot(k, Power(b, m - 1)) < b
    ensures Remainder(s, b, i, m, k) == s.Restore(i, b, Quot(k, Power(b, m - 1))) + b * Remainder(s, b, i + 1, m - 1, Rem(k, Power(b, m - 1)))
  {
  }

  /** Two numbers agree exactly when their leading parts and the rests do. */
  lemma BothSplit(c: nat, d: nat, q: nat, r: nat, p: nat, h: nat, t: nat, u: nat, w: nat, b: nat)
    requires d < p && r < p && t < b && w < b && u < p
    requires (c == q <==> t == w) && (d == r <==> h == u)
    ensures c * p + d == q * p + r <==> h * b + t == w + b * u
    ensures w + b * u < b * p
  {
    SplitEqual(c, d, q, r, p);
    SplitEqual(h, t, u, w, b);
    Odometers.MulLess(u, p, b);
    TimesSum(u, p, b);
  }

  lemma QuotientBelow(k: nat, p: nat, b: nat)
    requires p > 0 && k < b * p
    ensures Quot(k, p) < b
  {
    hide Quot, Rem;
    Divided(k, p);
    if Quot(k, p) >= b { Odometers.MulAtLeast(b, Quot(k, p), p); }
  }

  lemma SplitEqual(q1: nat, r1: nat, q2: nat, r2: nat, p: nat)
    requires r1 < p && r2 < p
    ensures q1 * p + r1 == q2 * p + r2 <==> q1 == q2 && r1 == r2
  {
    hide Quot, Rem;
    Divides(q1, p, r1);
    Divides(q2, p, r2);
  }

  lemma SplitRemainder(n: nat, b: nat, p: nat)
    requires b > 0 && p > 0
    ensures b * p > 0 && Rem(n, b * p) == Rem(Quot(n, b), p) * b + Rem(n, b)
  {
    hide Quot, Rem;
    var d := Quot(n, b);
    var h, q, r := Quot(d, p), Rem(d, p), Rem(n, b);
    Odometers.MulAtLeast(1, b, p);
    Odometers.MulLess(q, p, b);
    Divided(n, b);
    Divided(d, p);
    Regroup(h, p, q, b);
    Divides(h, b * p, q * b + r);
  }

  lemma Regroup(h: nat, p: nat, q: nat, b: nat)
    ensures (h * p + q) * b == h * (b * p) + q * b && b * p == p * b
  {
    assert (h * p) * b == h * (p * b);
    TimesSum(h * p, q, b);
  }

  /** In a window of p numbers each remainder occurs once. */
  function Pick(n0: nat, p: nat, r: nat): (n: nat)
    requires r < p
    ensures n0 <= n < n0 + p
  {
    var q := Rem(n0, p);
    if r >= q then n0 + (r - q) else n0 + (p + r - q)
  }

  lemma PickOnly(n0: nat, p: nat, r: nat, n: nat)
    requires r < p && n0 <= n < n0 + p
    ensures Rem(n, p) == r <==> n == Pick(n0, p, r)
  {
    hide Quot, Rem;
    var h, q, d := Quot(n0, p), Rem(n0, p), n - n0;
    Divided(n0, p);
    if q + d < p {
      Divides(h, p, q + d);
    } else {
      TimesSum(h, 1, p);
      Divides(h + 1, p, q + d - p);
    }
  }

  // ----- when the leading zeros do not matter -----

  /** Zeros that are not permuted do not matter, and neither do those that no number of the window has;
      the last one of them does not matter when it is not changed. */
  predicate ZerosHarmless(s: PermutationScheme, b: nat, m: nat, n0: nat)
    requires b >= 2
  {
    s != Warnock || m <= 1 || n0 >= Power(b, m - 1) || (Rem(m - 1, b) == 0 && n0 >= Power(b, m - 2))
  }

  lemma {:induction false} ZerosStay(s: PermutationScheme, b: nat, i: nat, m: nat)
    requires b >= 2 && s != Warnock
    ensures Cell(s, b, i, m, 0) == 0
    decreases m
  {
    hide Quot, Rem;
    if m > 0 {
      ZerosStay(s, b, i + 1, m - 1);
      Wraps(b, b);
      Wraps(0, b);
    }
  }

  lemma {:induction false} HitIsCell(s: PermutationScheme, b: nat, i: nat, m: nat, n: nat)
    requires b >= 2
    requires s != Warnock || m <= 1 || n >= Power(b, m - 1) || (Rem(i + m - 1, b) == 0 && n >= Power(b, m - 2))
    ensures Hit(s, b, i, m, n) == Cell(s, b, i, m, n)
    decreases m
  {
    hide Quot, Rem;
    if m > 1 {
      assert Power(b, 1) == b * Power(b, 0) == b;
      if n < b {
        Wraps(n, b);
        Divides(0, b, n);
        if s != Warnock {
          ZerosStay(s, b, i + 1, m - 1);
        } else {
          OnlyTwo(b, m, n);
          assert m == 2 && Cell(s, b, i + 1, 1, 0) == s.Permute(i + 1, b, 0) * Power(b, 0) + Cell(s, b, i + 2, 0, 0);
        }
      } else {
        if m > 2 {
          DivAtLeast(n, b, Power(b, m - 2));
          if m > 3 { DivAtLeast(n, b, Power(b, m - 3)); }
        }
        assert i + m - 1 == i + 1 + (m - 1) - 1;
        PowerPositive(b, 0);
        Odometers.MulAtLeast(1, Quot(n, b), 1);
        DivAtLeast(n, b, 1);
        HitIsCell(s, b, i + 1, m - 1, Quot(n, b));
      }
    }
  }

  lemma OnlyTwo(b: nat, m: nat, n: nat)
    requires b >= 2 && m > 1 && n < b && (n >= Power(b, m - 1) || n >= Power(b, m - 2))
    ensures m == 2 && !(n >= Power(b, m - 1))
  {
    PowerAtLeast(b, m - 1);
    if m > 2 { PowerAtLeast(b, m - 2); }
  }

  lemma PowerAtLeast(b: nat, k: nat)
    requires b >= 2 && k >= 1
    ensures Power(b, k) >= b
  {
    PowerPositive(b, k - 1);
    Odometers.MulAtLeast(1, Power(b, k - 1), b);
    TimesSum(b, 0, Power(b, k - 1));
  }

  // ----- the theorem -----

  /** Number n is the only one of the window whose point lies in cell k. */
  ghost predicate OnlyIn(s: PermutationScheme, b: nat, m: nat, n0: nat, n: nat, k: nat)
    requires b >= 2 && Power(b, m) > 0
  {
    && n0 <= n < n0 + Power(b, m) && InCell(Point(s, b, 0, n), k, Power(b, m))
    && forall n': nat :: n0 <= n' < n0 + Power(b, m) && InCell(Point(s, b, 0, n'), k, Power(b, m)) ==> n' == n
  }

  ghost predicate HitOnce(s: PermutationScheme, b: nat, m: nat, n0: nat, k: nat)
    requires b >= 2 && Power(b, m) > 0
  {
    exists n: nat :: OnlyIn(s, b, m, n0, n, k)
  }

  /** The points of b^m consecutive numbers fill the b^m cells, one each. */
  ghost predicate Even(s: PermutationScheme, b: nat, m: nat, n0: nat)
    requires b >= 2 && Power(b, m) > 0
  {
    forall k: nat :: k < Power(b, m) ==> HitOnce(s, b, m, n0, k)
  }

  lemma EvenWhenHarmless(s: PermutationScheme, b: nat, m: nat, n0: nat)
    requires b >= 2 && ZerosHarmless(s, b, m, n0)
    ensures Power(b, m) > 0 && Even(s, b, m, n0)
  {
    var p := Power(b, m);
    PowerPositive(b, m);
    forall k: nat | k < p
      ensures HitOnce(s, b, m, n0, k)
    {
      CellBound(s, b, 0, m, 0);
      CellOfRemainder(s, b, 0, m, n0, k);
      var n := Pick(n0, p, Remainder(s, b, 0, m, k));
      forall n': nat | n0 <= n' < n0 + p
        ensures InCell(Point(s, b, 0, n'), k, p) <==> n' == n
      {
        CellOfWindow(s, b, m, n0, n', k);
      }
      assert OnlyIn(s, b, m, n0, n, k);
    }
  }

  lemma CellOfWindow(s: PermutationScheme, b: nat, m: nat, n0: nat, n: nat, k: nat)
    requires b >= 2 && ZerosHarmless(s, b, m, n0) && k < Power(b, m) && n0 <= n < n0 + Power(b, m)
    ensures Remainder(s, b, 0, m, k) < Power(b, m)
    ensures InCell(Point(s, b, 0, n), k, Power(b, m)) <==> n == Pick(n0, Power(b, m), Remainder(s, b, 0, m, k))
  {
    hide InCell;
    CellOfRemainder(s, b, 0, m, n, k);
    HitIsCell(s, b, 0, m, n);
    PointInCell(s, b, m, n, k);
    PickOnly(n0, Power(b, m), Remainder(s, b, 0, m, k), n);
  }

  // ----- the last digit of the cell -----

  lemma {:induction false} LastZero(s: PermutationScheme, b: nat, i: nat, m: nat, n: nat)
    requires b >= 2 && m >= 2 && n < Power(b, m - 1)
    ensures Rem(Hit(s, b, i, m, n), b) == 0
    decreases m
  {
    hide Quot, Rem;
    hide PermutationScheme.Permute;
    var c, p := s.Permute(i, b, Rem(n, b)), Power(b, m - 2);
    var rest := if n < b then 0 else Hit(s, b, i + 1, m - 1, Quot(n, b));
    DropMultiple(c, p, b, rest);
    if n < b {
      Wraps(0, b);
    } else {
      PowerOne(b);
      DivAtLeast(n, b, p);
      LastZero(s, b, i + 1, m - 1, Quot(n, b));
    }
  }

  lemma DropMultiple(c: nat, p: nat, b: nat, rest: nat)
    requires b > 0
    ensures Rem(c * (b * p) + rest, b) == Rem(rest, b)
  {
    hide Quot, Rem;
    Product3(c, p, b);
    Divided(rest, b);
    Multiples(c * p, Quot(rest, b), Rem(rest, b), b);
  }

  lemma Product3(c: nat, p: nat, b: nat)
    ensures c * (b * p) == (c * p) * b
  {
  }

  lemma {:induction false} LastPermuted(b: nat, i: nat, m: nat, n: nat)
    requires b >= 2 && m >= 1 && n < Power(b, m - 1)
    ensures Rem(Cell(Warnock, b, i, m, n), b) == Rem(i + m - 1, b)
    decreases m
  {
    hide Quot, Rem;
    PowerOne(b);
    if m == 1 {
      OneDigit(b, i);
    } else {
      hide PermutationScheme.Permute;
      DropMultiple(Warnock.Permute(i, b, Rem(n, b)), Power(b, m - 2), b, Cell(Warnock, b, i + 1, m - 1, Quot(n, b)));
      DivAtLeast(n, b, Power(b, m - 2));
      LastPermuted(b, i + 1, m - 1, Quot(n, b));
    }
  }

  lemma OneDigit(b: nat, i: nat)
    requires b >= 2
    ensures Rem(Cell(Warnock, b, i, 1, 0), b) == Rem(i, b)
  {
    hide Quot, Rem;
    Wraps(0, b);
    Wraps(Rem(i, b), b);
    assert Cell(Warnock, b, i + 1, 0, Quot(0, b)) == 0;
  }

  // ----- when the leading zeros do matter -----

  lemma {:induction false} HitDropsLast(s: PermutationScheme, b: nat, i: nat, m: nat, n: nat)
    requires b >= 2 && m >= 1
    ensures Quot(Hit(s, b, i, m, n), b) == Hit(s, b, i, m - 1, n)
    decreases m
  {
    hide Quot, Rem;
    hide PermutationScheme.Permute;
    var c := s.Permute(i, b, Rem(n, b));
    PowerOne(b);
    if m == 1 {
      assert n >= b ==> Hit(s, b, i + 1, 0, Quot(n, b)) == 0;
      Divides(0, b, c);
    } else {
      var rest := if n < b then 0 else Hit(s, b, i + 1, m - 1, Quot(n, b));
      ShiftMultiple(c, Power(b, m - 2), b, rest);
      if n >= b { HitDropsLast(s, b, i + 1, m - 1, Quot(n, b)); }
    }
  }

  lemma {:induction false} CellDropsLast(s: PermutationScheme, b: nat, i: nat, m: nat, n: nat)
    requires b >= 2 && m >= 1
    ensures Quot(Cell(s, b, i, m, n), b) == Cell(s, b, i, m - 1, n)
    decreases m
  {
    hide Quot, Rem;
    hide PermutationScheme.Permute;
    var c := s.Permute(i, b, Rem(n, b));
    PowerOne(b);
    if m == 1 {
      assert Cell(s, b, i + 1, 0, Quot(n, b)) == 0;
      Divides(0, b, c);
    } else {
      ShiftMultiple(c, Power(b, m - 2), b, Cell(s, b, i + 1, m - 1, Quot(n, b)));
      CellDropsLast(s, b, i + 1, m - 1, Quot(n, b));
    }
  }

  lemma ShiftMultiple(c: nat, p: nat, b: nat, rest: nat)
    requires b > 0
    ensures Quot(c * (b * p) + rest, b) == c * p + Quot(rest, b)
  {
    hide Quot, Rem;
    Product3(c, p, b);
    Divided(rest, b);
    Multiples(c * p, Quot(rest, b), Rem(rest, b), b);
  }

  lemma Multiples(k: nat, q: nat, r: nat, b: nat)
    requires r < b
    ensures Quot(k * b + (q * b + r), b) == k + q && Rem(k * b + (q * b + r), b) == r
  {
    hide Quot, Rem;
    TimesSum(k, q, b);
    Divides(k + q, b, r);
  }

  /** Harmful zeros give the numbers below a power another cell than permuted zeros would. */
  lemma ZerosMove(b: nat, m: nat, n0: nat, n: nat)
    requires b >= 2 && !ZerosHarmless(Warnock, b, m, n0)
    requires !ZerosHarmless(Warnock, b, m, n)
    ensures Hit(Warnock, b, 0, m, n) != Cell(Warnock, b, 0, m, n0)
  {
    hide Quot, Rem;
    if Rem(m - 1, b) != 0 {
      LastZero(Warnock, b, 0, m, n);
      LastPermuted(b, 0, m, n0);
    } else {
      NextNotMultiple(m, b);
      HitDropsLast(Warnock, b, 0, m, n);
      CellDropsLast(Warnock, b, 0, m, n0);
      LastZero(Warnock, b, 0, m - 1, n);
      LastPermuted(b, 0, m - 1, n0);
    }
  }

  lemma NextNotMultiple(m: nat, b: nat)
    requires b >= 2 && m > 1 && Rem(m - 1, b) == 0
    ensures m >= 3 && Rem(m - 2, b) != 0
  {
    hide Quot, Rem;
    var q := Quot(m - 1, b);
    Divided(m - 1, b);
    if q >= 1 {
      TimesSum(q - 1, 1, b);
      Divides(q - 1, b, b - 1);
    }
  }

  /** When leading zeros are harmful, no point of the window lies in the cell that the first number would hit. */
  lemma NotEvenWhenHarmful(s: PermutationScheme, b: nat, m: nat, n0: nat)
    requires b >= 2 && !ZerosHarmless(s, b, m, n0)
    ensures Power(b, m) > 0 && !Even(s, b, m, n0)
  {
    hide Quot, Rem;
    hide InCell;
    PowerPositive(b, m);
    var k, p := Cell(s, b, 0, m, n0), Power(b, m);
    CellBound(s, b, 0, m, n0);
    forall n: nat | n0 <= n < n0 + p
      ensures !InCell(Point(s, b, 0, n), k, p)
    {
      PointInCell(s, b, m, n, k);
      if ZerosHarmless(s, b, m, n) {
        HitIsCell(s, b, 0, m, n);
        CellOfRemainder(s, b, 0, m, n, k);
        CellOfRemainder(s, b, 0, m, n0, k);
        PickOnly(n0, p, Remainder(s, b, 0, m, k), n);
        PickOnly(n0, p, Remainder(s, b, 0, m, k), n0);
      } else {
        ZerosMove(b, m, n0, n);
      }
    }
    assert !HitOnce(s, b, m, n0, k);
  }

  /** Consecutive points fill the cells evenly exactly when leading zeros are harmless: always without a
      permutation and with the reversing one. */
  lemma EvenExactly(s: PermutationScheme, b: nat, m: nat, n0: nat)
    requires b >= 2
    ensures Power(b, m) > 0 && (Even(s, b, m, n0) <==> ZerosHarmless(s, b, m, n0))
  {
    if ZerosHarmless(s, b, m, n0) { EvenWhenHarmless(s, b, m, n0); } else { NotEvenWhenHarmful(s, b, m, n0); }
  }
}
