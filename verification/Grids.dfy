/** Tensor grids over a one-dimensional quadrature with levels: their points, weights and totals. */
module Grids {
  import opened Reals
  import opened RealSums
  import opened Odometers

  /** A one-dimensional quadrature: points and weights by level and place. */
  datatype Rule = Rule(numPoints: nat -> nat, point: (nat, nat) -> real, weight: (nat, nat) -> real)

  function Weighted(q: Rule, l: nat, h: real -> real): nat -> real {
    (j: nat) => Mul(q.weight(l, j), h(q.point(l, j)))
  }

  /** The one-dimensional quadrature sum of h at a level. */
  function Apply(q: Rule, level: nat, h: real -> real): real {
    Sum(Weighted(q, level, h), 0, q.numPoints(level))
  }

  /** The numbers of points along the coordinates. */
  function Points(q: Rule, lev: seq<nat>): (r: seq<nat>)
    ensures |r| == |lev| && forall i :: 0 <= i < |lev| ==> r[i] == q.numPoints(lev[i])
  {
    seq(|lev|, i requires 0 <= i < |lev| => q.numPoints(lev[i]))
  }

  lemma PointsRest(q: Rule, lev: seq<nat>)
    requires |lev| > 0
    ensures Points(q, lev)[1..] == Points(q, lev[1..])
  {
  }

  function GridPoint(q: Rule, lev: seq<nat>, j: seq<nat>): (p: seq<real>)
    requires |j| == |lev|
    ensures |p| == |lev|
  {
    if |lev| == 0 then [] else [q.point(lev[0], j[0])] + GridPoint(q, lev[1..], j[1..])
  }

  function GridWeight(q: Rule, lev: seq<nat>, j: seq<nat>): real
    requires |j| == |lev|
  {
    if |lev| == 0 then 1.0 else Mul(q.weight(lev[0], j[0]), GridWeight(q, lev[1..], j[1..]))
  }

  lemma {:induction false} GridPointAt(q: Rule, lev: seq<nat>, j: seq<nat>, i: nat)
    requires |j| == |lev| && i < |lev|
    ensures GridPoint(q, lev, j)[i] == q.point(lev[i], j[i])
    decreases |lev|
  {
    if i > 0 { GridPointAt(q, lev[1..], j[1..], i - 1); }
  }

  /** One value of the tensor sum: weight times function. */
  function Contribution(q: Rule, lev: seq<nat>, f: seq<real> -> real, v: nat): real {
    var j := DigitsAt(v, Points(q, lev));
    Mul(GridWeight(q, lev, j), f(GridPoint(q, lev, j)))
  }

  function Values(q: Rule, lev: seq<nat>, f: seq<real> -> real): nat -> real {
    (v: nat) => Contribution(q, lev, f, v)
  }

  /** The tensor sum of f over the grid. */
  function GridTotal(q: Rule, lev: seq<nat>, f: seq<real> -> real): real {
    Sum(Values(q, lev, f), 0, Size(Points(q, lev)))
  }

  ghost predicate Inhabited(q: Rule) {
    forall l: nat :: q.numPoints(l) > 0
  }

  /** f with its first coordinate fixed. */
  function Fix(f: seq<real> -> real, x: real): seq<real> -> real {
    p => f([x] + p)
  }

  lemma RowValue(q: Rule, lev: seq<nat>, f: seq<real> -> real, j0: nat, v: nat, s: nat, first: nat)
    requires |lev| > 0 && s == Size(Points(q, lev[1..])) && v < s && first == j0 * s
    ensures Contribution(q, lev, f, first + v) == Mul(q.weight(lev[0], j0), Contribution(q, lev[1..], Fix(f, q.point(lev[0], j0)), v))
  {
    var r := Points(q, lev);
    PointsRest(q, lev);
    DivMod(j0, s, v);
    var j := DigitsAt(first + v, r);
    assert j[0] == j0 && j[1..] == DigitsAt(v, r[1..]);
    var x := q.point(lev[0], j0);
    MulAssociates(q.weight(lev[0], j0), GridWeight(q, lev[1..], j[1..]), f([x] + GridPoint(q, lev[1..], j[1..])));
  }

  /** The sums over the rows of the grid. */
  function Rows(q: Rule, lev: seq<nat>, f: seq<real> -> real): nat -> real
    requires |lev| > 0
  {
    (j: nat) => Mul(q.weight(lev[0], j), GridTotal(q, lev[1..], Fix(f, q.point(lev[0], j))))
  }

  /** The tensor sum, one coordinate first. */
  lemma GridPeel(q: Rule, lev: seq<nat>, f: seq<real> -> real)
    requires |lev| > 0 && Inhabited(q)
    ensures GridTotal(q, lev, f) == Sum(Rows(q, lev, f), 0, q.numPoints(lev[0]))
  {
    var s := Size(Points(q, lev[1..]));
    PointsRest(q, lev);
    forall j: nat | j < q.numPoints(lev[0])
      ensures Rows(q, lev, f)(j) == Sum(Values(q, lev, f), j * s, j * s + s)
    {
      Row(q, lev, f, j, s);
    }
    SumRows(Values(q, lev, f), Rows(q, lev, f), q.numPoints(lev[0]), s);
  }

  lemma Row(q: Rule, lev: seq<nat>, f: seq<real> -> real, j: nat, s: nat)
    requires |lev| > 0 && Inhabited(q) && s == Size(Points(q, lev[1..]))
    ensures Sum(Values(q, lev, f), j * s, j * s + s) == Rows(q, lev, f)(j)
  {
    hide *;
    RowShift(q, lev, f, j, s, j * s);
    RowScale(q, lev, f, j, s);
  }

  /** One row of the grid. */
  function RowValues(q: Rule, lev: seq<nat>, f: seq<real> -> real, j: nat): nat -> real
    requires |lev| > 0
  {
    (v: nat) => Mul(q.weight(lev[0], j), Values(q, lev[1..], Fix(f, q.point(lev[0], j)))(v))
  }

  lemma RowShift(q: Rule, lev: seq<nat>, f: seq<real> -> real, j: nat, s: nat, first: nat)
    requires |lev| > 0 && Inhabited(q) && s == Size(Points(q, lev[1..])) && first == j * s
    ensures Sum(Values(q, lev, f), first, first + s) == Sum(RowValues(q, lev, f, j), 0, s)
  {
    hide Sum, GridWeight, GridPoint, DigitsAt, Size;
    forall v: nat | 0 <= v < s
      ensures Values(q, lev, f)(v + first) == RowValues(q, lev, f, j)(v)
    {
      RowValue(q, lev, f, j, v, s, first);
      assert Values(q, lev, f)(first + v) == Contribution(q, lev, f, first + v);
      var fixed := Fix(f, q.point(lev[0], j));
      assert Values(q, lev[1..], fixed)(v) == Contribution(q, lev[1..], fixed, v);
      assert RowValues(q, lev, f, j)(v) == Mul(q.weight(lev[0], j), Values(q, lev[1..], fixed)(v));
    }
    SumShift(RowValues(q, lev, f, j), Values(q, lev, f), 0, s, first);
  }

  lemma RowScale(q: Rule, lev: seq<nat>, f: seq<real> -> real, j: nat, s: nat)
    requires |lev| > 0 && s == Size(Points(q, lev[1..]))
    ensures Sum(RowValues(q, lev, f, j), 0, s) == Rows(q, lev, f)(j)
  {
    hide Size;
    SumScale(q.weight(lev[0], j), Values(q, lev[1..], Fix(f, q.point(lev[0], j))), RowValues(q, lev, f, j), 0, s);
  }

  function Weights(q: Rule, l: nat): nat -> real {
    (j: nat) => q.weight(l, j)
  }

  /** Every level's weights sum to w. */
  ghost predicate Normalized(q: Rule, w: real) {
    forall l: nat :: Sum(Weights(q, l), 0, q.numPoints(l)) == w
  }

  /** f only looks at one coordinate. */
  ghost predicate Looks(f: seq<real> -> real, h: real -> real, c: nat, d: nat) {
    c < d && forall p: seq<real> :: |p| == d ==> f(p) == h(p[c])
  }

  ghost predicate IsConstant(f: seq<real> -> real, k: real, d: nat) {
    forall p: seq<real> :: |p| == d ==> f(p) == k
  }

  lemma PointTotal(q: Rule, f: seq<real> -> real)
    ensures GridTotal(q, [], f) == f([])
  {
    assert Points(q, []) == [];
    assert Size([]) == 1;
    assert DigitsAt(0, []) == [];
    assert Sum(Values(q, [], f), 0, 1) == Sum(Values(q, [], f), 0, 0) + Values(q, [], f)(0);
    assert GridWeight(q, [], []) == 1.0;
    MulUnits(f([]));
  }

  /** The tensor sum of a constant. */
  lemma {:induction false} ConstantTotal(q: Rule, lev: seq<nat>, f: seq<real> -> real, k: real, w: real)
    requires Inhabited(q) && Normalized(q, w) && IsConstant(f, k, |lev|)
    ensures GridTotal(q, lev, f) == Mul(RealPower(w, |lev|), k)
    decreases |lev|
  {
    hide GridTotal, Mul;
    if |lev| == 0 {
      PointTotal(q, f);
      MulUnits(k);
    } else {
      GridPeel(q, lev, f);
      var n := q.numPoints(lev[0]);
      var rest := Mul(RealPower(w, |lev| - 1), k);
      forall j: nat | 0 <= j < n
        ensures Rows(q, lev, f)(j) == Mul(rest, Weights(q, lev[0])(j))
      {
        ConstantTotal(q, lev[1..], Fix(f, q.point(lev[0], j)), k, w);
        MulCommutes(rest, q.weight(lev[0], j));
      }
      SumScale(rest, Weights(q, lev[0]), Rows(q, lev, f), 0, n);
      MulCommutes(rest, w);
      MulAssociates(w, RealPower(w, |lev| - 1), k);
    }
  }

  /** The tensor sum of a function of the first coordinate. */
  lemma FirstCoordinate(q: Rule, lev: seq<nat>, f: seq<real> -> real, h: real -> real, w: real)
    requires Inhabited(q) && Normalized(q, w) && Looks(f, h, 0, |lev|)
    ensures GridTotal(q, lev, f) == Mul(RealPower(w, |lev| - 1), Apply(q, lev[0], h))
  {
    hide GridTotal, Mul;
    GridPeel(q, lev, f);
    var n := q.numPoints(lev[0]);
    var rest := RealPower(w, |lev| - 1);
    forall j: nat | 0 <= j < n
      ensures Rows(q, lev, f)(j) == Mul(rest, Weighted(q, lev[0], h)(j))
    {
      var x := q.point(lev[0], j);
      assert IsConstant(Fix(f, x), h(x), |lev| - 1);
      ConstantTotal(q, lev[1..], Fix(f, x), h(x), w);
      MulExchanges(q.weight(lev[0], j), rest, h(x));
    }
    SumScale(rest, Weighted(q, lev[0], h), Rows(q, lev, f), 0, n);
  }

  /** The tensor sum of a function of one coordinate: the other coordinates only give their weights. */
  lemma {:induction false} CoordinateTotal(q: Rule, lev: seq<nat>, f: seq<real> -> real, h: real -> real, c: nat, w: real)
    requires Inhabited(q) && Normalized(q, w) && Looks(f, h, c, |lev|)
    ensures GridTotal(q, lev, f) == Mul(RealPower(w, |lev| - 1), Apply(q, lev[c], h))
    decreases |lev|
  {
    hide GridTotal, Mul, Apply;
    if c == 0 {
      FirstCoordinate(q, lev, f, h, w);
    } else {
      GridPeel(q, lev, f);
      var n := q.numPoints(lev[0]);
      var rest := Mul(RealPower(w, |lev| - 2), Apply(q, lev[c], h));
      forall j: nat | 0 <= j < n
        ensures Rows(q, lev, f)(j) == Mul(rest, Weights(q, lev[0])(j))
      {
        assert Looks(Fix(f, q.point(lev[0], j)), h, c - 1, |lev| - 1);
        CoordinateTotal(q, lev[1..], Fix(f, q.point(lev[0], j)), h, c - 1, w);
        MulCommutes(rest, q.weight(lev[0], j));
      }
      SumScale(rest, Weights(q, lev[0]), Rows(q, lev, f), 0, n);
      MulCommutes(rest, w);
      MulAssociates(w, RealPower(w, |lev| - 2), Apply(q, lev[c], h));
    }
  }

  // ----- products of functions -----

  /** The product of one function in each coordinate. */
  function ProductAt(hs: seq<real -> real>, p: seq<real>): real
    requires |p| == |hs|
  {
    if |hs| == 0 then 1.0 else Mul(hs[0](p[0]), ProductAt(hs[1..], p[1..]))
  }

  /** The product of the one-dimensional rules. */
  function RuleProduct(q: Rule, lev: seq<nat>, hs: seq<real -> real>): real
    requires |lev| == |hs|
  {
    if |hs| == 0 then 1.0 else Mul(Apply(q, lev[0], hs[0]), RuleProduct(q, lev[1..], hs[1..]))
  }

  ghost predicate IsProduct(f: seq<real> -> real, k: real, hs: seq<real -> real>) {
    forall p: seq<real> :: |p| == |hs| ==> f(p) == Mul(k, ProductAt(hs, p))
  }

  lemma FixedProduct(f: seq<real> -> real, k: real, hs: seq<real -> real>, x: real)
    requires |hs| > 0 && IsProduct(f, k, hs)
    ensures IsProduct(Fix(f, x), Mul(k, hs[0](x)), hs[1..])
  {
    hide Mul;
    forall p: seq<real> | |p| == |hs| - 1
      ensures Fix(f, x)(p) == Mul(Mul(k, hs[0](x)), ProductAt(hs[1..], p))
    {
      assert ([x] + p)[1..] == p;
      assert f([x] + p) == Mul(k, ProductAt(hs, [x] + p));
      MulAssociates(k, hs[0](x), ProductAt(hs[1..], p));
    }
  }

  lemma NoFactors(f: seq<real> -> real, k: real)
    requires IsProduct(f, k, [])
    ensures f([]) == k
  {
    MulUnits(k);
  }

  /** The tensor sum of a product is the product of the one-dimensional sums. */
  lemma {:induction false} ProductTotal(q: Rule, lev: seq<nat>, f: seq<real> -> real, k: real, hs: seq<real -> real>)
    requires Inhabited(q) && |lev| == |hs| && IsProduct(f, k, hs)
    ensures GridTotal(q, lev, f) == Mul(k, RuleProduct(q, lev, hs))
    decreases |lev|
  {
    hide GridTotal, Mul, Apply, IsProduct;
    if |lev| == 0 {
      PointTotal(q, f);
      assert hs == [];
      NoFactors(f, k);
      MulUnits(k);
    } else {
      GridPeel(q, lev, f);
      var n, rest := q.numPoints(lev[0]), RuleProduct(q, lev[1..], hs[1..]);
      forall j: nat | 0 <= j < n
        ensures Rows(q, lev, f)(j) == Mul(Mul(k, rest), Weighted(q, lev[0], hs[0])(j))
      {
        var x := q.point(lev[0], j);
        FixedProduct(f, k, hs, x);
        ProductTotal(q, lev[1..], Fix(f, x), Mul(k, hs[0](x)), hs[1..]);
        RegroupFactors(q.weight(lev[0], j), k, hs[0](x), rest);
      }
      TotalOfRows(q, lev, f, Mul(k, rest), hs[0]);
      MulAssociates(k, rest, Apply(q, lev[0], hs[0]));
      MulCommutes(rest, Apply(q, lev[0], hs[0]));
    }
  }

  lemma RegroupFactors(w: real, k: real, h: real, rest: real)
    ensures Mul(w, Mul(Mul(k, h), rest)) == Mul(Mul(k, rest), Mul(w, h))
  {
    hide Mul;
    MulAssociates(k, h, rest);
    MulCommutes(h, rest);
    MulAssociates(k, rest, h);
    MulExchanges(w, Mul(k, rest), h);
  }

  lemma TotalOfRows(q: Rule, lev: seq<nat>, f: seq<real> -> real, k: real, h: real -> real)
    requires |lev| > 0
    requires forall j: nat :: 0 <= j < q.numPoints(lev[0]) ==> Rows(q, lev, f)(j) == Mul(k, Weighted(q, lev[0], h)(j))
    ensures Sum(Rows(q, lev, f), 0, q.numPoints(lev[0])) == Mul(k, Apply(q, lev[0], h))
  {
    hide GridTotal;
    SumScale(k, Weighted(q, lev[0], h), Rows(q, lev, f), 0, q.numPoints(lev[0]));
  }

  /** Writes the coordinates of the point and multiplies the weights onto w0. */
  method SetPoint(q: Rule, lev: seq<nat>, jseq: array<nat>, p: array<real>, w0: real) returns (w: real)
    requires jseq.Length == p.Length == |lev|
    modifies p
    ensures p[..] == GridPoint(q, lev, jseq[..])
    ensures w == Mul(w0, GridWeight(q, lev, jseq[..]))
  {
    hide Mul;
    ghost var j := jseq[..];
    w := w0;
    var i := 0;
    while i < |lev|
      invariant 0 <= i <= |lev|
      invariant forall k :: 0 <= k < i ==> p[k] == q.point(lev[k], j[k])
      invariant Mul(w, GridWeight(q, lev[i..], j[i..])) == Mul(w0, GridWeight(q, lev, j))
    {
      p[i] := q.point(lev[i], jseq[i]);
      assert lev[i..][1..] == lev[i + 1..] && j[i..][1..] == j[i + 1..];
      MulAssociates(w, q.weight(lev[i], j[i]), GridWeight(q, lev[i + 1..], j[i + 1..]));
      w := Mul(w, q.weight(lev[i], jseq[i]));
      i := i + 1;
    }
    MulUnits(w);
    forall k | 0 <= k < |lev|
      ensures p[k] == GridPoint(q, lev, j)[k]
    {
      GridPointAt(q, lev, j, k);
    }
  }
}
