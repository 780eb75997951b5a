/** Radical inverses of numbers: digit arrays, permutation schemes, and how evenly the points fill the unit interval. */
module RadicalInverses {
  import opened Reals
  import opened RealSums
  import Odometers

  // Quotients and remainders, as functions so that their facts can be used one at a time.

  function Quot(n: nat, b: nat): (q: nat)
    requires b > 0
    ensures n < b ==> q == 0
    ensures n >= b ==> q > 0
    ensures b >= 2 && n > 0 ==> q < n
  {
    QuotBounds(n, b);
    n / b
  }

  function Rem(n: nat, b: nat): (r: nat)
    requires b > 0
    ensures r < b && (n < b ==> r == n)
  {
    n % b
  }

  lemma QuotBounds(n: nat, b: nat)
    requires b > 0
    ensures n < b ==> n / b == 0
    ensures n >= b ==> n / b > 0
    ensures b >= 2 && n > 0 ==> n / b < n
  {
    if n < b { Odometers.DivMod(0, b, n); }
    if n >= b { Odometers.DivMonotone(b, n, b); Odometers.DivMod(1, b, 0); }
    if b >= 2 && n > 0 && n / b >= n { Odometers.MulAtLeast(n, n / b, b); Odometers.MulAtLeast(2, b, n); }
  }

  lemma Divided(n: nat, b: nat)
    requires b > 0
    ensures n == Quot(n, b) * b + Rem(n, b)
  {
  }

  lemma Divides(q: nat, b: nat, r: nat)
    requires r < b
    ensures Quot(q * b + r, b) == q && Rem(q * b + r, b) == r
  {
    Odometers.DivMod(q, b, r);
  }

  lemma QuotMonotone(n: nat, m: nat, b: nat)
    requires b > 0 && n <= m
    ensures Quot(n, b) <= Quot(m, b)
  {
    Odometers.DivMonotone(n, m, b);
  }

  /** How digits are permuted before they are reflected. */
  datatype PermutationScheme = Identity | Reverse | Warnock {
    /** The digit that digit c at place i becomes. */
    function Permute(i: nat, base: nat, c: nat): (r: nat)
      requires base >= 2 && c < base
      ensures r < base
    {
      match this
      case Identity => c
      case Reverse => Rem(base - c, base)
      case Warnock => Rem(c + i, base)
    }

    /** The digit that becomes c. */
    function Restore(i: nat, base: nat, c: nat): (r: nat)
      requires base >= 2 && c < base
      ensures r < base
    {
      match this
      case Identity => c
      case Reverse => Rem(base - c, base)
      case Warnock => Rem(c + base - Rem(i, base), base)
    }

    /** Every digit comes from exactly one digit. */
    lemma PermuteOnce(i: nat, base: nat, c: nat, d: nat)
      requires base >= 2 && c < base && d < base
      ensures Permute(i, base, c) == d <==> c == Restore(i, base, d)
    {
      var q := Rem(i, base);
      Modulo(c, i, base);
      Wraps(c + q, base);
      Wraps(d + base - q, base);
      Wraps(base - c, base);
      Wraps(base - d, base);
    }
  }

  lemma Wraps(x: nat, base: nat)
    requires base > 0 && x < 2 * base
    ensures Rem(x, base) == if x < base then x else x - base
  {
    hide Quot, Rem;
    if x >= base { Divides(1, base, x - base); } else { Divides(0, base, x); }
  }

  lemma Modulo(c: nat, i: nat, base: nat)
    requires base > 0
    ensures Rem(c + i, base) == Rem(c + Rem(i, base), base)
  {
    hide Quot, Rem;
    var k, q := Quot(i, base), Rem(i, base);
    var h, r := Quot(c + q, base), Rem(c + q, base);
    Divided(i, base);
    Divided(c + q, base);
    TimesSum(k, h, base);
    Divides(k + h, base, r);
  }

  lemma TimesSum(a: nat, b: nat, c: nat)
    ensures (a + b) * c == a * c + b * c && c * (a + b) == c * a + c * b && a * c == c * a
  {
  }

  // ----- digits -----

  /** Digit i of n, the least significant one first. */
  function Digit(n: nat, base: nat, i: nat): nat
    requires base >= 2
  {
    if i == 0 then Rem(n, base) else Digit(Quot(n, base), base, i - 1)
  }

  /** How many digits n has; zero has one. */
  function DigitCount(n: nat, base: nat): (r: nat)
    requires base >= 2
    ensures r > 0
    decreases n
  {
    if n < base then 1 else 1 + DigitCount(Quot(n, base), base)
  }

  /** The number with the given digits. */
  function Number(c: seq<nat>, base: nat): nat {
    if |c| == 0 then 0 else c[0] + base * Number(c[1..], base)
  }

  ghost predicate InBase(c: seq<nat>, base: nat) {
    forall i :: 0 <= i < |c| ==> c[i] < base
  }

  function Power(b: nat, n: nat): nat {
    if n == 0 then 1 else b * Power(b, n - 1)
  }

  /** The digit sequence of a number is determined by the number. */
  lemma {:induction false} NumberDigits(c: seq<nat>, base: nat, i: nat)
    requires base >= 2 && InBase(c, base) && i < |c|
    ensures c[i] == Digit(Number(c, base), base, i)
    decreases |c|
  {
    hide Quot, Rem;
    var rest := Number(c[1..], base);
    assert base * rest == rest * base;
    Divides(rest, base, c[0]);
    if i > 0 { NumberDigits(c[1..], base, i - 1); }
  }

  lemma {:induction false} PowerPositive(b: nat, n: nat)
    requires b >= 1
    ensures Power(b, n) >= 1
  {
    if n > 0 {
      PowerPositive(b, n - 1);
      Odometers.MulAtLeast(1, Power(b, n - 1), b);
      assert b * Power(b, n - 1) == Power(b, n - 1) * b;
    }
  }

  lemma DivAtLeast(n: nat, base: nat, p: nat)
    requires base > 0
    ensures Quot(n, base) >= p <==> n >= base * p
  {
    hide Quot, Rem;
    var q := Quot(n, base);
    Divided(n, base);
    if q >= p { Odometers.MulAtLeast(p, q, base); } else { Odometers.MulLess(q, p, base); }
    assert base * p == p * base;
  }

  // ----- the points -----

  function Over(x: real, b: nat): real
    requires b > 0
  {
    x / b as real
  }

  /** The point of n: its permuted digits, from place i on, after the radix point. */
  function Point(s: PermutationScheme, base: nat, i: nat, n: nat): real
    requires base >= 2
    decreases n
  {
    Over(s.Permute(i, base, Rem(n, base)) as real + (if n < base then 0.0 else Point(s, base, i + 1, Quot(n, base))), base)
  }

  /** The reflected digits c from place i on. */
  function Reflected(s: PermutationScheme, base: nat, i: nat, c: seq<nat>): real
    requires base >= 2 && InBase(c, base)
    decreases |c|
  {
    if |c| == 0 then 0.0 else Over(s.Permute(i, base, c[0]) as real + Reflected(s, base, i + 1, c[1..]), base)
  }

  lemma {:induction false} ReflectedIsPoint(s: PermutationScheme, base: nat, i: nat, c: seq<nat>)
    requires base >= 2 && InBase(c, base) && |c| > 0 && (|c| > 1 ==> c[|c| - 1] != 0)
    ensures Reflected(s, base, i, c) == Point(s, base, i, Number(c, base)) && DigitCount(Number(c, base), base) == |c|
    decreases |c|
  {
    hide Quot, Rem, Over, PermutationScheme.Permute;
    var rest := Number(c[1..], base);
    assert base * rest == rest * base;
    Divides(rest, base, c[0]);
    if |c| == 1 {
      assert c[1..] == [] && Reflected(s, base, i + 1, c[1..]) == 0.0;
    } else {
      ReflectedIsPoint(s, base, i + 1, c[1..]);
      TopDigit(c[1..], base);
      Odometers.MulAtLeast(1, rest, base);
    }
  }

  lemma {:induction false} TopDigit(c: seq<nat>, base: nat)
    requires base >= 2 && |c| > 0 && c[|c| - 1] != 0
    ensures Number(c, base) > 0
    decreases |c|
  {
    if |c| > 1 {
      TopDigit(c[1..], base);
      Odometers.MulAtLeast(1, Number(c[1..], base), base);
      assert base * Number(c[1..], base) == Number(c[1..], base) * base;
    }
  }

  // ----- the points as sums over the digits -----

  /** The digit d that a scheme puts at place i for digit c: c itself, the digit that completes c to the base, or the one i places on. */
  ghost predicate Uses(s: PermutationScheme, base: nat, i: nat, c: nat, d: nat)
    requires base >= 2
  {
    && d < base
    && match s
       case Identity => d == c
       case Reverse => (d + c) % base == 0
       case Warnock => (d - c - i) % base == 0
  }

  /** The digits a scheme puts after the radix point, from place i on. */
  ghost predicate UsedDigits(s: PermutationScheme, base: nat, i: nat, n: nat, ds: seq<nat>)
    requires base >= 2
  {
    |ds| == DigitCount(n, base) && forall k :: 0 <= k < |ds| ==> Uses(s, base, i + k, Digit(n, base, k), ds[k])
  }

  function Place(d: nat, base: nat, k: nat): real
    requires base >= 2
  {
    PowerPositive(base, k + 1);
    d as real / Power(base, k + 1) as real
  }

  /** Digit k over base to the k + 1. */
  function Places(ds: seq<nat>, base: nat): nat -> real
    requires base >= 2
  {
    (k: nat) => if k < |ds| then Place(ds[k], base, k) else 0.0
  }

  /** The digits after the radix point. */
  function Series(ds: seq<nat>, base: nat): real
    requires base >= 2
  {
    Sum(Places(ds, base), 0, |ds|)
  }

  /** A scheme uses exactly the digit that it permutes to. */
  lemma UsesPermuted(s: PermutationScheme, base: nat, i: nat, c: nat, d: nat)
    requires base >= 2 && c < base
    ensures Uses(s, base, i, c, d) <==> d == s.Permute(i, base, c)
  {
    var r := s.Permute(i, base, c);
    match s
    case Identity =>
    case Reverse =>
      Wraps(base - c, base);
      if d < base { SmallMultiple(d + c, base); }
    case Warnock =>
      RemGap(c + i, base);
      if d < base { SameResidue(d, r, c + i, base); }
  }

  lemma SmallMultiple(x: nat, base: nat)
    requires base >= 2 && x < 2 * base
    ensures x % base == 0 <==> x == 0 || x == base
  {
    Wraps(x, base);
  }

  /** The remainder differs from the number by a multiple of the base. */
  lemma RemGap(x: nat, base: nat)
    requires base >= 2
    ensures (Rem(x, base) - x) % base == 0
  {
    Divided(x, base);
    MultipleMod(-(Quot(x, base) as int), base);
  }

  lemma Multiple(k: int, base: int)
    requires base > 0
    ensures k >= 1 ==> k * base >= base
    ensures k <= -1 ==> k * base <= -base
  {
    if k >= 1 { assert (k - 1) * base >= 0; }
    if k <= -1 { assert (-1 - k) * base >= 0; }
  }

  lemma MultipleMod(q: int, base: nat)
    requires base >= 2
    ensures (q * base) % base == 0
  {
    var x := q * base;
    var h, r := x / base, x % base;
    assert x == base * h + r;
    assert (q - h) * base == q * base - h * base;
    assert h * base == base * h;
    Multiple(q - h, base);
  }

  lemma SameResidue(d: nat, r: nat, x: nat, base: nat)
    requires base >= 2 && d < base && r < base && (r - x) % base == 0
    ensures (d - x) % base == 0 <==> d == r
  {
    if (d - x) % base == 0 {
      var a, b := (d - x) / base, (r - x) / base;
      ExactQuotient(d - x, base);
      ExactQuotient(r - x, base);
      assert (a - b) * base == a * base - b * base;
      Multiple(a - b, base);
    }
  }

  lemma ExactQuotient(x: int, base: nat)
    requires base >= 2 && x % base == 0
    ensures x == (x / base) * base
  {
  }

  lemma PlaceShift(d: nat, base: nat, k: nat)
    requires base >= 2
    ensures Place(d, base, k + 1) == Mul(1.0 / base as real, Place(d, base, k))
  {
    PowerPositive(base, k + 1);
    PowerPositive(base, k + 2);
    var p: nat := Power(base, k + 1);
    assert Power(base, k + 2) == base * p;
    Fractions(d as real, base as real, p as real);
  }

  lemma Fractions(d: real, b: real, p: real)
    requires b > 0.0 && p > 0.0
    ensures b * p > 0.0 && d / (b * p) == (1.0 / b) * (d / p)
  {
    var x, y := d / p, 1.0 / b;
    assert x * p == d && y * b == 1.0;
    assert (y * x) * (b * p) == (y * b) * (x * p);
  }

  /** One digit more in front. */
  lemma SeriesStep(ds: seq<nat>, base: nat)
    requires base >= 2 && |ds| > 0
    ensures Series(ds, base) == Over(ds[0] as real + Series(ds[1..], base), base)
  {
    hide Place, Mul, Sum, Over, Places;
    var n := |ds| - 1;
    SumFirst(Places(ds, base), 0, n + 1);
    FirstIsPlace(ds, base);
    RestScaled(ds, base);
    FirstPlace(ds[0], base, Series(ds[1..], base));
  }

  lemma FirstIsPlace(ds: seq<nat>, base: nat)
    requires base >= 2 && |ds| > 0
    ensures Places(ds, base)(0) == Place(ds[0], base, 0)
  {
  }

  function Scaled(ds: seq<nat>, base: nat): nat -> real
    requires base >= 2
  {
    (k: nat) => Mul(1.0 / base as real, Places(ds, base)(k))
  }

  lemma ShiftedPlace(ds: seq<nat>, base: nat, k: nat)
    requires base >= 2 && k + 1 < |ds|
    ensures Places(ds, base)(k + 1) == Scaled(ds[1..], base)(k)
  {
    hide Place, Mul;
    assert Places(ds[1..], base)(k) == Place(ds[k + 1], base, k);
    PlaceShift(ds[k + 1], base, k);
  }

  lemma RestScaled(ds: seq<nat>, base: nat)
    requires base >= 2 && |ds| > 0
    ensures Sum(Places(ds, base), 1, |ds|) == Mul(1.0 / base as real, Series(ds[1..], base))
  {
    hide Place, Mul, Sum, Places;
    var h, n := Scaled(ds[1..], base), |ds| - 1;
    forall k: nat | k < n
      ensures Places(ds, base)(k + 1) == h(k)
    {
      ShiftedPlace(ds, base, k);
    }
    SumShift(h, Places(ds, base), 0, n, 1);
    SumScale(1.0 / base as real, Places(ds[1..], base), h, 0, n);
  }

  lemma FirstPlace(d: nat, base: nat, x: real)
    requires base >= 2
    ensures Place(d, base, 0) + Mul(1.0 / base as real, x) == Over(d as real + x, base)
  {
    PowerOne(base);
  }

  /** The point is the sum of the used digits over the powers of the base. */
  lemma {:induction false} PointIsSeries(s: PermutationScheme, base: nat, i: nat, n: nat, ds: seq<nat>)
    requires base >= 2 && UsedDigits(s, base, i, n, ds)
    ensures Point(s, base, i, n) == Series(ds, base)
    decreases n
  {
    hide Quot, Rem, Over, PermutationScheme.Permute, Uses, Series;
    assert Uses(s, base, i + 0, Digit(n, base, 0), ds[0]);
    UsesPermuted(s, base, i, Rem(n, base), ds[0]);
    SeriesStep(ds, base);
    if n >= base {
      forall k | 0 <= k < |ds| - 1
        ensures Uses(s, base, i + 1 + k, Digit(Quot(n, base), base, k), ds[1..][k])
      {
        assert Uses(s, base, i + (k + 1), Digit(n, base, k + 1), ds[k + 1]);
      }
      PointIsSeries(s, base, i + 1, Quot(n, base), ds[1..]);
    } else {
      assert ds[1..] == [];
      NoDigits(base);
    }
  }

  lemma NoDigits(base: nat)
    requires base >= 2
    ensures Series([], base) == 0.0
  {
  }

  /** Every number has used digits. */
  lemma {:induction false} DigitsExist(s: PermutationScheme, base: nat, i: nat, n: nat) returns (ds: seq<nat>)
    requires base >= 2
    ensures UsedDigits(s, base, i, n, ds)
    decreases n
  {
    hide Quot, Rem, PermutationScheme.Permute, Uses;
    var d := s.Permute(i, base, Rem(n, base));
    UsesPermuted(s, base, i, Rem(n, base), d);
    if n < base {
      ds := [d];
    } else {
      var rest := DigitsExist(s, base, i + 1, Quot(n, base));
      ds := [d] + rest;
      forall k | 0 <= k < |ds|
        ensures Uses(s, base, i + k, Digit(n, base, k), ds[k])
      {
        if k > 0 { assert Uses(s, base, i + 1 + (k - 1), Digit(Quot(n, base), base, k - 1), rest[k - 1]); }
      }
    }
  }

  /** A number as an array of digits, with room for one digit more than the greatest number has. */
  class RadicalInverse {
    const base: nat
    const maxn: nat
    const coeff: array<nat>
    var num: nat
    var j: int

    ghost predicate Valid()
      reads this, coeff
    {
      && base >= 2 && coeff.Length == DigitCount(maxn, base) + 1 && num <= maxn + 1
      && InBase(coeff[..], base) && Number(coeff[..], base) == num
      && 0 <= j < coeff.Length && (j > 0 ==> coeff[j] != 0) && (forall i :: j < i < coeff.Length ==> coeff[i] == 0)
    }

    /** The array holds the digits of the number, and j is the place of the first one. */
    lemma HoldsDigits()
      requires Valid()
      ensures j + 1 == DigitCount(num, base)
      ensures forall i :: 0 <= i < coeff.Length ==> coeff[i] == Digit(num, base, i)
    {
      forall i | 0 <= i < coeff.Length
        ensures coeff[i] == Digit(num, base, i)
      {
        NumberDigits(coeff[..], base, i);
      }
      ZerosAbove(coeff[..], base, j + 1);
      ReflectedIsPoint(Identity, base, 0, coeff[..j + 1]);
    }

    constructor (n: nat, b: nat, mxn: nat)
      requires b >= 2 && mxn >= 1 && n <= mxn + 1
      ensures Valid() && num == n && base == b && maxn == mxn && fresh(coeff)
    {
      num, base, maxn, j := n, b, mxn, -1;
      coeff := new nat[DigitCount(mxn, b) + 1](_ => 0);
      new;
      hide Filled, Number, DigitCount, InBase, Power;
      RoomFor(n, b, mxn);
      FilledNone(coeff[..], n);
      var nr: nat, more := n, true;
      while more
        invariant -1 <= j < coeff.Length && (j >= 0 || more) && num == n
        invariant Filled(coeff[..], n, nr, j + 1, more)
        decreases more, nr
      {
        ghost var before := coeff[..];
        FilledRoom(before, n, nr, j + 1);
        FilledMore(before, n, nr, j + 1);
        j := j + 1;
        var c: nat := nr % base;
        coeff[j] := c;
        assert coeff[..] == before[j := c];
        nr := nr / base;
        more := nr > 0;
      }
      FilledAll(coeff[..], n, nr, j + 1);
    }

    /** The point of the number. */
    method Eval(p: PermutationScheme) returns (res: real)
      requires Valid()
      ensures res == Point(p, base, 0, num)
      ensures exists ds :: UsedDigits(p, base, 0, num, ds) && res == Series(ds, base)
    {
      hide Over, PermutationScheme.Permute, Number;
      res := 0.0;
      var i := j;
      while i >= 0
        invariant -1 <= i <= j
        invariant res == Reflected(p, base, i + 1, coeff[i + 1..j + 1])
      {
        var cper := p.Permute(i, base, coeff[i]);
        res := Over(cper as real + res, base);
        assert coeff[i..j + 1][1..] == coeff[i + 1..j + 1];
        i := i - 1;
      }
      assert coeff[0..j + 1] == coeff[..j + 1];
      ZerosAbove(coeff[..], base, j + 1);
      ReflectedIsPoint(p, base, 0, coeff[..j + 1]);
      ghost var ds := DigitsExist(p, base, 0, num);
      PointIsSeries(p, base, 0, num, ds);
    }

    /** Goes on to the next number; there is room for it up to one more than maxn. */
    method Increase()
      requires Valid() && num <= maxn
      modifies this`num, this`j, coeff
      ensures Valid() && num == old(num) + 1
    {
      hide Number, DigitCount;
      ghost var was := coeff[..];
      TopIsFree();
      num := num + 1;
      var i := 0;
      coeff[i] := coeff[i] + 1;
      while coeff[i] == base
        invariant 0 <= i < coeff.Length && coeff[i] == was[i] + 1 && num == old(num) + 1 && j == old(j)
        invariant forall k :: 0 <= k < i ==> coeff[k] == 0 && was[k] + 1 == base
        invariant forall k :: i < k < coeff.Length ==> coeff[k] == was[k]
        decreases coeff.Length - i
      {
        coeff[i] := 0;
        i := i + 1;
        coeff[i] := coeff[i] + 1;
      }
      Carried(was, coeff[..], base, i);
      assert forall k :: 0 <= k < |was| ==> was[k] < base;
      assert InBase(coeff[..], base);
      if i > j {
        j := i;
      }
    }

    lemma TopIsFree()
      requires Valid() && num <= maxn
      ensures coeff[coeff.Length - 1] == 0 && coeff.Length > 1
    {
      HoldsDigits();
      CountMonotone(num, maxn, base);
    }

    /** The first k digits of n have been taken off, nr is left. */
    ghost predicate Filled(c: seq<nat>, n: nat, nr: nat, k: nat, more: bool)
      requires base >= 2
    {
      && InBase(c, base) && k <= |c| && (forall i :: k <= i < |c| ==> c[i] == 0)
      && DigitCount(n, base) == k + (if more then DigitCount(nr, base) else 0)
      && Number(c[..k], base) + Power(base, k) * nr == n
      && (!more ==> nr == 0 && (k > 1 ==> c[k - 1] != 0)) && (k > 0 && more ==> nr > 0)
    }

    lemma FilledNone(c: seq<nat>, n: nat)
      requires base >= 2 && forall i :: 0 <= i < |c| ==> c[i] == 0
      ensures Filled(c, n, n, 0, true)
    {
    }

    lemma FilledRoom(c: seq<nat>, n: nat, nr: nat, k: nat)
      requires base >= 2 && Filled(c, n, nr, k, true) && |c| >= DigitCount(n, base)
      ensures k < |c|
    {
    }

    lemma FilledAll(c: seq<nat>, n: nat, nr: nat, k: nat)
      requires base >= 2 && Filled(c, n, nr, k, false) && k > 0
      ensures InBase(c, base) && Number(c, base) == n && (forall i :: k <= i < |c| ==> c[i] == 0) && k <= |c|
      ensures k > 1 ==> c[k - 1] != 0
    {
      ZerosAbove(c, base, k);
    }

    lemma FilledMore(c: seq<nat>, n: nat, nr: nat, k: nat)
      requires base >= 2 && Filled(c, n, nr, k, true) && k < |c|
      ensures Filled(c[k := Rem(nr, base)], n, Quot(nr, base), k + 1, Quot(nr, base) > 0) && Quot(nr, base) <= nr && (Quot(nr, base) > 0 ==> Quot(nr, base) < nr)
    {
      hide Number, Power, DigitCount;
      CountStep(nr, base);
      var d: nat := Rem(nr, base);
      var next := c[k := d];
      assert next[..k + 1] == c[..k] + [d];
      NumberMore(c[..k], nr, base);
    }
  }

  lemma {:induction false} CountMonotone(n: nat, m: nat, base: nat)
    requires base >= 2 && n <= m
    ensures DigitCount(n, base) <= DigitCount(m, base)
    decreases n
  {
    hide Quot, Rem;
    if n >= base {
      QuotMonotone(n, m, base);
      CountMonotone(Quot(n, base), Quot(m, base), base);
    }
  }

  /** Raising a digit and resetting the full ones before it adds one. */
  lemma {:induction false} Carried(c: seq<nat>, d: seq<nat>, base: nat, i: nat)
    requires i < |c| == |d| && d[i] == c[i] + 1 && base >= 1
    requires forall k :: 0 <= k < i ==> d[k] == 0 && c[k] + 1 == base
    requires forall k :: i < k < |c| ==> d[k] == c[k]
    ensures Number(d, base) == Number(c, base) + 1
    decreases i
  {
    if i == 0 {
      assert d[1..] == c[1..];
    } else {
      Carried(c[1..], d[1..], base, i - 1);
      TimesSum(Number(c[1..], base), 1, base);
    }
  }

  lemma CountStep(n: nat, base: nat)
    requires base >= 2
    ensures DigitCount(n, base) == 1 + (if Quot(n, base) > 0 then DigitCount(Quot(n, base), base) else 0)
    ensures Quot(n, base) <= n && (Quot(n, base) > 0 ==> Quot(n, base) < n) && (n > 0 && Quot(n, base) == 0 ==> Rem(n, base) == n)
  {
    hide Quot, Rem;
    DivAtLeast(n, base, 1);
  }

  lemma {:induction false} NumberMore(c: seq<nat>, nr: nat, b: nat)
    requires b >= 2
    ensures Number(c + [Rem(nr, b)], b) + Power(b, |c| + 1) * Quot(nr, b) == Number(c, b) + Power(b, |c|) * nr
    decreases |c|
  {
    hide Quot, Rem, Power;
    var d, q := Rem(nr, b), Quot(nr, b);
    if |c| == 0 {
      PowerOne(b);
      Divided(nr, b);
      TimesSum(q, 0, b);
      assert (c + [d])[1..] == [];
      assert Number([], b) == 0;
      assert c + [d] == [d];
    } else {
      var rest := c[1..];
      assert (c + [d])[1..] == rest + [d];
      NumberMore(rest, nr, b);
      PowerStep(b, |c| + 1);
      PowerStep(b, |c|);
      Factor(b, Number(rest + [d], b), Power(b, |c|), q);
      Factor(b, Number(rest, b), Power(b, |c| - 1), nr);
    }
  }

  lemma PowerOne(b: nat)
    ensures Power(b, 0) == 1 && Power(b, 1) == b
  {
    assert Power(b, 1) == b * Power(b, 0);
  }

  lemma PowerStep(b: nat, m: nat)
    requires m > 0
    ensures Power(b, m) == b * Power(b, m - 1)
  {
  }

  lemma Factor(b: nat, x: nat, p: nat, y: nat)
    ensures b * x + (b * p) * y == b * (x + p * y)
  {
    assert (b * p) * y == b * (p * y);
  }

  lemma {:induction false} ZerosAbove(c: seq<nat>, base: nat, k: nat)
    requires k <= |c| && forall i :: k <= i < |c| ==> c[i] == 0
    ensures Number(c, base) == Number(c[..k], base)
    decreases k, |c|
  {
    if |c| > 0 {
      if k > 0 {
        ZerosAbove(c[1..], base, k - 1);
        assert c[1..][..k - 1] == c[..k][1..];
      } else {
        ZerosAbove(c[1..], base, 0);
      }
    }
  }

  /** Up to one more than the greatest number, one digit more is enough. */
  lemma {:induction false} RoomFor(n: nat, base: nat, maxn: nat)
    requires base >= 2 && n <= maxn + 1
    ensures DigitCount(n, base) <= DigitCount(maxn, base) + 1
    decreases n
  {
    hide Quot, Rem;
    if n >= base {
      NextQuotient(n, maxn, base);
      if maxn >= base { RoomFor(Quot(n, base), base, Quot(maxn, base)); } else { Wraps(base, base); Divides(1, base, 0); assert n == base; }
    }
  }

  lemma NextQuotient(n: nat, m: nat, base: nat)
    requires base >= 2 && base <= n <= m + 1
    ensures Quot(n, base) <= Quot(m, base) + 1 && Quot(n, base) < n
  {
    hide Quot, Rem;
    SumQuotient(m, base);
    QuotMonotone(n, m + base, base);
  }

  lemma SumQuotient(m: nat, base: nat)
    requires base > 0
    ensures Quot(m + base, base) == Quot(m, base) + 1
  {
    hide Quot, Rem;
    Divided(m, base);
    TimesSum(Quot(m, base), 1, base);
    Divides(Quot(m, base) + 1, base, Rem(m, base));
  }
}
