/** Sums over squares and triangles of index pairs. */
module DoubleSums {
  import opened RealSums

  type Table = (nat, nat) -> real

  function Along(f: Table, i: nat): nat -> real {
    (k: nat) => f(i, k)
  }

  function RowSums(f: Table, n: nat): nat -> real {
    (i: nat) => Sum(Along(f, i), 0, n)
  }

  /** The sum over m rows of n cells. */
  function Rectangle(f: Table, m: nat, n: nat): real {
    Sum(RowSums(f, n), 0, m)
  }

  function Flip(f: Table): Table {
    (i: nat, k: nat) => f(k, i)
  }

  lemma RowsMore(f: Table, m: nat, n: nat)
    ensures Rectangle(f, m, n + 1) == Rectangle(f, m, n) + Sum(Along(Flip(f), n), 0, m)
  {
    SumPlus(RowSums(f, n), Along(Flip(f), n), RowSums(f, n + 1), 0, m);
  }

  lemma NoColumns(f: Table, m: nat)
    ensures Rectangle(f, m, 0) == 0.0
  {
    SumZero(RowSums(f, 0), 0, m);
  }

  /** Rows and columns can be exchanged. */
  lemma {:induction false} Exchange(f: Table, m: nat, n: nat)
    ensures Rectangle(f, m, n) == Rectangle(Flip(f), n, m)
    decreases n
  {
    if n == 0 {
      NoColumns(f, m);
    } else {
      Exchange(f, m, n - 1);
      RowsMore(f, m, n - 1);
    }
  }

  /** The cells whose indices add up to p. */
  function Diagonal(f: Table, p: nat): nat -> real {
    (n: nat) => if n <= p then f(n, p - n) else 0.0
  }

  function Diagonals(f: Table): nat -> real {
    (p: nat) => Sum(Diagonal(f, p), 0, p + 1)
  }

  function ShortRows(f: Table, n: nat): nat -> real {
    (i: nat) => if i <= n then Sum(Along(f, i), 0, n - i) else 0.0
  }

  /** A triangle by diagonals is the triangle by rows. */
  lemma {:induction false} ByDiagonals(f: Table, n: nat)
    ensures Sum(Diagonals(f), 0, n) == Sum(ShortRows(f, n), 0, n)
    decreases n
  {
    if n > 0 {
      ByDiagonals(f, n - 1);
      var m := n - 1;
      forall i: nat | i < n
        ensures ShortRows(f, n)(i) == ShortRows(f, m)(i) + Diagonal(f, m)(i)
      {
        SumLast(Along(f, i), 0, m - i);
      }
      SumPlus(ShortRows(f, m), Diagonal(f, m), ShortRows(f, n), 0, n);
      SumLast(ShortRows(f, m), 0, m);
    }
  }

  /** All cells with indices that add up to n or more are zero. */
  ghost predicate Triangular(f: Table, n: nat) {
    forall i: nat, k: nat :: i + k >= n ==> f(i, k) == 0.0
  }

  /** A square with one half zero by diagonals. */
  lemma TriangleSum(f: Table, n: nat)
    requires Triangular(f, n)
    ensures Sum(Diagonals(f), 0, n) == Rectangle(f, n, n)
  {
    ByDiagonals(f, n);
    forall i: nat | i < n
      ensures ShortRows(f, n)(i) == RowSums(f, n)(i)
    {
      SumSplit(Along(f, i), 0, n - i, n);
      SumZero(Along(f, i), n - i, n);
    }
    SumSame(ShortRows(f, n), RowSums(f, n), 0, n);
  }
}
