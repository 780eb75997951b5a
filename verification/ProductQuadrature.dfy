/** The product quadrature and its point iterator. */
module ProductQuadratures {
  import opened Reals
  import opened RealSums
  import opened Odometers
  import opened Grids
  import opened Portions

  /** The same level along every coordinate. */
  function Repeat(level: nat, d: nat): (lev: seq<nat>)
    ensures |lev| == d && forall i :: 0 <= i < d ==> lev[i] == level
  {
    seq(d, _ => level)
  }

  /** The points of the product grid. */
  function Radices(q: Rule, level: nat, d: nat): (r: seq<nat>)
    ensures |r| == d && forall i :: 0 <= i < d ==> r[i] == q.numPoints(level)
  {
    Points(q, Repeat(level, d))
  }

  class ProdPit {
    const prodq: ProductQuadrature
    const level: nat
    const npoints: nat
    const jseq: array<nat>
    const p: array<real>
    var endFlag: bool
    var w: real

    ghost predicate Valid()
      reads this, jseq, p
    {
      && prodq.dim > 0 && jseq.Length == p.Length == prodq.dim
      && npoints == prodq.uquad.numPoints(level)
      && (endFlag ==> jseq[..] == Zeros(prodq.dim))
      && (!endFlag ==> Digits(jseq[..], Radices(prodq.uquad, level, prodq.dim)))
      && (!endFlag ==> p[..] == GridPoint(prodq.uquad, Repeat(level, prodq.dim), jseq[..]))
      && (!endFlag ==> w == GridWeight(prodq.uquad, Repeat(level, prodq.dim), jseq[..]))
    }

    /** The number of points before this one. */
    ghost function Position(): nat
      requires Valid()
      reads this, jseq, p
    {
      var r := Radices(prodq.uquad, level, prodq.dim);
      if endFlag then Size(r) else Value(jseq[..], r)
    }

    /** The iterator at (j0, 0, .., 0). */
    constructor (q: ProductQuadrature, j0: nat, l: nat)
      requires q.dim > 0
      ensures Valid() && fresh(jseq) && fresh(p) && prodq == q && level == l
      ensures endFlag <==> j0 >= q.uquad.numPoints(l)
      ensures !endFlag ==> Position() == j0 * Size(Radices(q.uquad, l, q.dim)[1..])
    {
      prodq, level, npoints := q, l, q.uquad.numPoints(l);
      jseq := new nat[q.dim](_ => 0);
      p := new real[q.dim](_ => 0.0);
      endFlag := j0 >= q.uquad.numPoints(l);
      w := 0.0;
      new;
      if j0 < npoints {
        jseq[0] := j0;
        SetPointAndWeight();
        assert jseq[..] == [j0] + Zeros(q.dim - 1);
        ValueOfFirst(j0, Radices(q.uquad, l, q.dim));
      } else {
        assert jseq[..] == Zeros(q.dim);
      }
    }

    method SetPointAndWeight()
      requires jseq.Length == p.Length == prodq.dim
      modifies this`w, p
      ensures p[..] == GridPoint(prodq.uquad, Repeat(level, prodq.dim), jseq[..])
      ensures w == GridWeight(prodq.uquad, Repeat(level, prodq.dim), jseq[..])
    {
      w := SetPoint(prodq.uquad, Repeat(level, prodq.dim), jseq, p, 1.0);
      MulUnits(GridWeight(prodq.uquad, Repeat(level, prodq.dim), jseq[..]));
    }

    /** Steps to the next position. */
    method Increment()
      requires Valid() && !endFlag
      modifies this`endFlag, this`w, jseq, p
      ensures Valid() && Position() == old(Position()) + 1
    {
      hide Value, Size;
      var i := Advance(jseq, Radices(prodq.uquad, level, prodq.dim));
      if i == -1 {
        endFlag := true;
      }
      if !endFlag {
        SetPointAndWeight();
      }
    }

    /** Iterators over the same level are equal exactly when they are at the same position. */
    method Equals(other: ProdPit) returns (r: bool)
      requires Valid() && other.Valid()
      ensures prodq == other.prodq && level == other.level ==> (r <==> Position() == other.Position())
    {
      r := prodq == other.prodq && endFlag == other.endFlag && jseq[..] == other.jseq[..];
      if prodq == other.prodq && level == other.level {
        PositionsDiffer(other);
      }
    }

    lemma PositionsDiffer(other: ProdPit)
      requires Valid() && other.Valid() && prodq == other.prodq && level == other.level
      ensures Position() == other.Position() <==> endFlag == other.endFlag && jseq[..] == other.jseq[..]
    {
      hide Value, Size;
      var r := Radices(prodq.uquad, level, prodq.dim);
      if !endFlag { ValueBound(jseq[..], r); }
      if !other.endFlag { ValueBound(other.jseq[..], r); }
      if !endFlag && !other.endFlag {
        assert Positive(r) by { assert forall i :: 0 <= i < |r| ==> jseq[..][i] < r[i]; }
        DigitsAtValue(jseq[..], r);
        DigitsAtValue(other.jseq[..], r);
      }
    }
  }

  class ProductQuadrature {
    const dim: nat
    const uquad: Rule

    constructor (d: nat, q: Rule)
      ensures dim == d && uquad == q
    {
      dim, uquad := d, q;
    }

    /** How many points the quadrature has. */
    method NumEvals(l: nat) returns (res: nat)
      ensures res == Size(Radices(uquad, l, dim))
    {
      res := 1;
      var i := 0;
      while i < dim
        invariant 0 <= i <= dim
        invariant res == Size(Radices(uquad, l, i))
      {
        assert Radices(uquad, l, i + 1)[1..] == Radices(uquad, l, i);
        res := res * uquad.numPoints(l);
        i := i + 1;
      }
    }

    /** Where portion ti of tn begins. */
    ghost function Start(l: nat, tn: nat): nat -> nat
      requires dim > 0 && tn > 0
    {
      (ti: nat) => Share(ti, uquad.numPoints(l), tn) * Size(Radices(uquad, l, dim)[1..])
    }

    /** The iterator at the beginning of portion ti. */
    method Begin(ti: nat, tn: nat, l: nat) returns (it: ProdPit)
      requires dim > 0 && ti <= tn && tn > 0
      ensures it.Valid() && fresh(it) && fresh(it.jseq) && fresh(it.p) && it.prodq == this && it.level == l
      ensures it.Position() == Start(l, tn)(ti)
    {
      var npoints := uquad.numPoints(l);
      it := new ProdPit(this, Share(ti, npoints, tn), l);
      ShareEnds(npoints, tn);
      ShareMonotone(ti, tn, npoints, tn);
    }

    lemma PortionsSplit(l: nat, tn: nat)
      requires dim > 0 && tn > 0
      ensures Split(Start(l, tn), tn, Size(Radices(uquad, l, dim)))
    {
      hide Share;
      var n, s := uquad.numPoints(l), Size(Radices(uquad, l, dim)[1..]);
      ShareEnds(n, tn);
      forall ti: nat | ti < tn
        ensures InOrder(Start(l, tn), ti)
      {
        ShareMonotone(ti, ti + 1, n, tn);
        MulAtLeast(Share(ti, n, tn), Share(ti + 1, n, tn), s);
      }
    }

    /** What the point at position v adds to component c of the integral of func. */
    ghost function Parts(l: nat, func: seq<real> -> seq<real>, c: nat): nat -> real {
      Values(uquad, Repeat(l, dim), Component(func, c))
    }

    /** A worker adds the portion ti of tn to outvec. */
    method Work(func: seq<real> -> seq<real>, l: nat, ti: nat, tn: nat, outvec: array<real>)
      requires dim > 0 && ti < tn && forall p: seq<real> :: |func(p)| == outvec.Length
      modifies outvec
      ensures forall c :: 0 <= c < outvec.Length ==> outvec[c] == old(outvec[c]) + PortionSum(Parts(l, func, c), Start(l, tn), ti)
    {
      hide *;
      PortionInOrder(l, tn, ti);
      var run := Begin(ti, tn, l);
      var end := Begin(ti + 1, tn, l);
      var tmpall := new real[outvec.Length](_ => 0.0);
      ghost var from := run.Position();
      NothingYet(l, func, from, outvec.Length);
      var done := run.Equals(end);
      while !done
        invariant run.Valid() && end.Valid() && run.prodq == end.prodq == this && run.level == end.level == l
        invariant from == Start(l, tn)(ti) <= run.Position() <= end.Position() == Start(l, tn)(ti + 1)
        invariant done <==> run.Position() == end.Position()
        invariant forall c :: 0 <= c < outvec.Length ==> tmpall[c] == Sum(Parts(l, func, c), from, run.Position())
        invariant outvec[..] == old(outvec[..])
        decreases end.Position() - run.Position()
      {
        BeforeEnd(run, end);
        Visit(run, func, tmpall, from);
        done := run.Equals(end);
      }
      AddScaled(outvec, 1.0, tmpall[..]);
      forall c | 0 <= c < outvec.Length
        ensures Mul(1.0, tmpall[c]) == PortionSum(Parts(l, func, c), Start(l, tn), ti)
      {
        MulUnits(tmpall[c]);
        PortionAt(Parts(l, func, c), Start(l, tn), ti);
      }
    }

    /** Adds the value at the iterator's point and steps on. */
    method Visit(run: ProdPit, func: seq<real> -> seq<real>, tmpall: array<real>, ghost from: nat)
      requires run.Valid() && !run.endFlag && run.prodq == this && tmpall != run.p && from <= run.Position()
      requires forall p: seq<real> :: |func(p)| == tmpall.Length
      requires forall c :: 0 <= c < tmpall.Length ==> tmpall[c] == Sum(Parts(run.level, func, c), from, run.Position())
      modifies run`endFlag, run`w, run.jseq, run.p, tmpall
      ensures run.Valid() && run.Position() == old(run.Position()) + 1
      ensures forall c :: 0 <= c < tmpall.Length ==> tmpall[c] == Sum(Parts(run.level, func, c), from, run.Position())
    {
      hide *;
      var tmp := func(run.p[..]);
      OnePoint(run, func, tmpall.Length, from);
      AddScaled(tmpall, run.w, tmp);
      run.Increment();
    }

    lemma PortionInOrder(l: nat, tn: nat, ti: nat)
      requires dim > 0 && ti < tn
      ensures Start(l, tn)(ti) <= Start(l, tn)(ti + 1)
    {
      hide Start;
      PortionsSplit(l, tn);
      assert InOrder(Start(l, tn), ti);
    }

    lemma NothingYet(l: nat, func: seq<real> -> seq<real>, from: nat, n: nat)
      ensures forall c: nat :: c < n ==> Sum(Parts(l, func, c), from, from) == 0.0
    {
    }

    lemma BeforeEnd(run: ProdPit, end: ProdPit)
      requires run.Valid() && end.Valid() && run.prodq == end.prodq == this && run.level == end.level
      requires run.Position() < end.Position()
      ensures !run.endFlag
    {
      if run.endFlag && !end.endFlag {
        ValueBound(end.jseq[..], Radices(uquad, end.level, dim));
      }
    }

    /** The iterator's weight and point are those of its position. */
    lemma OnePoint(run: ProdPit, func: seq<real> -> seq<real>, n: nat, from: nat)
      requires run.Valid() && run.prodq == this && !run.endFlag && from <= run.Position()
      requires forall p: seq<real> :: |func(p)| == n
      ensures forall c: nat :: c < n ==> (
        Sum(Parts(run.level, func, c), from, run.Position() + 1) ==
        Sum(Parts(run.level, func, c), from, run.Position()) + Mul(run.w, func(run.p[..])[c]))
    {
      hide Sum, Value, GridWeight, GridPoint;
      var lev := Repeat(run.level, dim);
      var r := Points(uquad, lev);
      assert Positive(r) by { assert forall i :: 0 <= i < |r| ==> run.jseq[..][i] < r[i]; }
      DigitsAtValue(run.jseq[..], r);
      forall c: nat | c < n
        ensures Sum(Parts(run.level, func, c), from, run.Position() + 1) ==
          Sum(Parts(run.level, func, c), from, run.Position()) + Mul(run.w, func(run.p[..])[c])
      {
        SumLast(Parts(run.level, func, c), from, run.Position());
      }
    }

    /** Integrates with tn workers that add to outvec in the given order. */
    method Integrate(func: seq<real> -> seq<real>, l: nat, tn: nat, outvec: array<real>, order: seq<nat>)
      requires dim > 0 && tn > 0 && Schedule(order, tn) && forall p: seq<real> :: |func(p)| == outvec.Length
      modifies outvec
      ensures forall c :: 0 <= c < outvec.Length ==> outvec[c] == GridTotal(uquad, Repeat(l, dim), Component(func, c))
    {
      hide Sum, Start, Values;
      var c := 0;
      while c < outvec.Length
        invariant 0 <= c <= outvec.Length
        invariant forall k :: 0 <= k < c ==> outvec[k] == 0.0
      {
        outvec[c] := 0.0;
        c := c + 1;
      }
      var k := 0;
      while k < tn
        invariant 0 <= k <= tn
        invariant forall c :: 0 <= c < outvec.Length ==>
          outvec[c] == OrderSum(PortionSums(Parts(l, func, c), Start(l, tn)), order[..k])
      {
        Work(func, l, order[k], tn, outvec);
        assert order[..k + 1] == order[..k] + [order[k]];
        forall c | 0 <= c < outvec.Length
          ensures OrderSum(PortionSums(Parts(l, func, c), Start(l, tn)), order[..k + 1]) ==
            OrderSum(PortionSums(Parts(l, func, c), Start(l, tn)), order[..k]) + PortionSum(Parts(l, func, c), Start(l, tn), order[k])
        {
          OrderSumLast(PortionSums(Parts(l, func, c), Start(l, tn)), order[..k], order[k]);
        }
        k := k + 1;
      }
      PortionsSplit(l, tn);
      assert order[..tn] == order;
      forall c | 0 <= c < outvec.Length
        ensures outvec[c] == GridTotal(uquad, Repeat(l, dim), Component(func, c))
      {
        ParallelIsSequential(Parts(l, func, c), Start(l, tn), tn, Size(Radices(uquad, l, dim)), order);
      }
    }
  }

  /** The product rule is exact in each coordinate: on a function of one coordinate it gives the
      one-dimensional rule, times the total weight once for each other coordinate. */
  lemma ProductReproduces(q: Rule, l: nat, d: nat, f: seq<real> -> real, h: real -> real, c: nat, w: real)
    requires Inhabited(q) && Normalized(q, w) && Looks(f, h, c, d)
    ensures GridTotal(q, Repeat(l, d), f) == Mul(RealPower(w, d - 1), Apply(q, l, h))
  {
    CoordinateTotal(q, Repeat(l, d), f, h, c, w);
  }

  /** On a product of functions of one coordinate each, the product rule gives the product of the one-dimensional rules. */
  lemma ProductOfRules(q: Rule, l: nat, d: nat, f: seq<real> -> real, hs: seq<real -> real>)
    requires Inhabited(q) && |hs| == d && forall p: seq<real> :: |p| == d ==> f(p) == ProductAt(hs, p)
    ensures GridTotal(q, Repeat(l, d), f) == RulePowers(q, l, hs)
  {
    hide GridTotal, Mul;
    forall p: seq<real> | |p| == d
      ensures f(p) == Mul(1.0, ProductAt(hs, p))
    {
      MulUnits(ProductAt(hs, p));
    }
    ProductTotal(q, Repeat(l, d), f, 1.0, hs);
    MulUnits(RuleProduct(q, Repeat(l, d), hs));
    SameLevels(q, l, hs);
  }

  /** The product of the one-dimensional rules at one level. */
  function RulePowers(q: Rule, l: nat, hs: seq<real -> real>): real {
    if |hs| == 0 then 1.0 else Mul(Apply(q, l, hs[0]), RulePowers(q, l, hs[1..]))
  }

  lemma {:induction false} SameLevels(q: Rule, l: nat, hs: seq<real -> real>)
    ensures RuleProduct(q, Repeat(l, |hs|), hs) == RulePowers(q, l, hs)
    decreases |hs|
  {
    hide Mul, Apply;
    if |hs| > 0 {
      assert Repeat(l, |hs|)[1..] == Repeat(l, |hs| - 1);
      SameLevels(q, l, hs[1..]);
    }
  }
}
