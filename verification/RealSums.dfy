/** Finite sums of reals. */
module RealSums {
  import opened Reals

  function Sum(f: nat -> real, a: nat, b: nat): real
    requires a <= b
    decreases b - a
  {
    if a == b then 0.0 else Sum(f, a, b - 1) + f(b - 1)
  }

  lemma SumEmpty(f: nat -> real, a: nat)
    ensures Sum(f, a, a) == 0.0
  {
  }

  lemma SumLast(f: nat -> real, a: nat, b: nat)
    requires a <= b
    ensures Sum(f, a, b + 1) == Sum(f, a, b) + f(b)
  {
  }

  lemma {:induction false} SumSplit(f: nat -> real, a: nat, m: nat, b: nat)
    requires a <= m <= b
    ensures Sum(f, a, b) == Sum(f, a, m) + Sum(f, m, b)
    decreases b - m
  {
    if m < b { SumSplit(f, a, m, b - 1); }
  }

  lemma {:induction false} SumFirst(f: nat -> real, a: nat, b: nat)
    requires a < b
    ensures Sum(f, a, b) == f(a) + Sum(f, a + 1, b)
  {
    SumSplit(f, a, a + 1, b);
    assert Sum(f, a, a + 1) == Sum(f, a, a) + f(a);
  }

  lemma {:induction false} SumSame(f: nat -> real, g: nat -> real, a: nat, b: nat)
    requires a <= b && forall i: nat :: a <= i < b ==> f(i) == g(i)
    ensures Sum(f, a, b) == Sum(g, a, b)
    decreases b - a
  {
    if a < b { SumSame(f, g, a, b - 1); }
  }

  lemma {:induction false} SumShift(f: nat -> real, g: nat -> real, a: nat, b: nat, d: nat)
    requires a <= b && forall i: nat :: a <= i < b ==> g(i + d) == f(i)
    ensures Sum(g, a + d, b + d) == Sum(f, a, b)
    decreases b - a
  {
    if a < b { SumShift(f, g, a, b - 1, d); }
  }

  lemma {:induction false} SumScale(c: real, f: nat -> real, g: nat -> real, a: nat, b: nat)
    requires a <= b && forall i: nat :: a <= i < b ==> g(i) == Mul(c, f(i))
    ensures Sum(g, a, b) == Mul(c, Sum(f, a, b))
    decreases b - a
  {
    hide Mul;
    if a < b {
      SumScale(c, f, g, a, b - 1);
      MulDistributes(c, Sum(f, a, b - 1), f(b - 1));
    } else {
      MulUnits(c);
    }
  }

  lemma {:induction false} SumPlus(f: nat -> real, g: nat -> real, h: nat -> real, a: nat, b: nat)
    requires a <= b && forall i: nat :: a <= i < b ==> h(i) == f(i) + g(i)
    ensures Sum(h, a, b) == Sum(f, a, b) + Sum(g, a, b)
    decreases b - a
  {
    if a < b { SumPlus(f, g, h, a, b - 1); }
  }

  lemma {:induction false} SumZero(f: nat -> real, a: nat, b: nat)
    requires a <= b && forall i: nat :: a <= i < b ==> f(i) == 0.0
    ensures Sum(f, a, b) == 0.0
    decreases b - a
  {
    if a < b { SumZero(f, a, b - 1); }
  }

  /** A sum taken backwards. */
  lemma {:induction false} SumReverse(f: nat -> real, g: nat -> real, n: nat)
    requires forall i: nat :: i <= n ==> g(i) == f(n - i)
    ensures Sum(g, 0, n + 1) == Sum(f, 0, n + 1)
    decreases n
  {
    if n > 0 {
      var h := (i: nat) => g(i + 1);
      SumReverse(f, h, n - 1);
      SumShift(h, g, 0, n, 1);
      SumFirst(g, 0, n + 1);
    }
  }

  /** A sum over a rectangle laid out row by row. */
  lemma {:induction false} SumRows(f: nat -> real, rows: nat -> real, n: nat, m: nat)
    requires forall i: nat :: i < n ==> rows(i) == Sum(f, i * m, i * m + m)
    ensures 0 <= n * m && Sum(f, 0, n * m) == Sum(rows, 0, n)
    decreases n
  {
    if n > 0 {
      SumRows(f, rows, n - 1, m);
      assert n * m == (n - 1) * m + m;
      SumSplit(f, 0, (n - 1) * m, n * m);
    }
  }
}
