/** The Smolyak quadrature and its point iterator. */
module SmolyakQuadratures {
  import opened Reals
  import opened RealSums
  import opened Odometers
  import opened Grids
  import opened Portions
  import opened MultiIndices
  import opened Combination
  import Sets = SymmetrySets

  /** The slack item is at most d-1. */
  predicate Kept(si: seq<nat>, d: nat) {
    |si| == d + 1 && si[d] < d
  }

  /** The levels of a kept sequence: its first d items plus one. */
  function Levels(si: seq<nat>, d: nat): (lev: seq<nat>)
    requires |si| == d + 1
    ensures |lev| == d && forall i :: 0 <= i < d ==> lev[i] == si[i] + 1
  {
    seq(d, i requires 0 <= i < d => si[i] + 1)
  }

  /** The level sequences that the enumeration ss gives. */
  function Kepts(ss: seq<seq<nat>>, d: nat): (r: seq<seq<nat>>)
    ensures forall k :: 0 <= k < |r| ==> |r[k]| == d
  {
    if |ss| == 0 then []
    else
      var last := ss[|ss| - 1];
      Kepts(ss[..|ss| - 1], d) + if Kept(last, d) then [Levels(last, d)] else []
  }

  /** All level sequences of the Smolyak formula of level l. */
  function Summands(l: nat, d: nat): (r: seq<seq<nat>>)
    requires l > 0
    ensures forall k :: 0 <= k < |r| ==> |r[k]| == d
  {
    Kepts(Sets.All(l - 1, d + 1), d)
  }

  /** The number of points in the first k summands. */
  function Cumulated(q: Rule, levels: seq<seq<nat>>, k: nat): nat
    requires k <= |levels|
  {
    if k == 0 then 0 else Cumulated(q, levels, k - 1) + Size(Points(q, levels[k - 1]))
  }

  lemma {:induction false} CumulatedGrows(q: Rule, levels: seq<seq<nat>>, i: nat, k: nat)
    requires Inhabited(q) && i <= k <= |levels|
    ensures Cumulated(q, levels, i) <= Cumulated(q, levels, k)
    ensures i < k ==> Cumulated(q, levels, i) < Cumulated(q, levels, k)
    decreases k
  {
    if i < k {
      CumulatedGrows(q, levels, i, k - 1);
      SizePositive(Points(q, levels[k - 1]));
    }
  }

  /** The last coefficient's sign and binomial, from the sum of the levels. */
  function Coefficient(l: nat, d: nat, sumk: nat): real
    requires d > 0 && l <= sumk < l + d
  {
    Mul(Sign(l + d - sumk - 1), Choose(d - 1, sumk - l) as real)
  }

  lemma {:induction false} ChooseSymmetric(n: nat, k: nat)
    requires k <= n
    ensures Choose(n, k) == Choose(n, n - k)
    decreases n
  {
    if 0 < k < n {
      ChooseSymmetric(n - 1, k - 1);
      ChooseSymmetric(n - 1, k);
    } else {
      ChooseFull(n);
    }
  }

  lemma {:induction false} ChooseFull(n: nat)
    ensures Choose(n, n) == 1
  {
    if n > 0 {
      ChooseFull(n - 1);
      ChooseAbove(n - 1, n);
    }
  }

  lemma {:induction false} TotalOfLevels(si: seq<nat>, d: nat)
    requires |si| == d + 1
    ensures Sets.Total(Levels(si, d)) + si[d] == Sets.Total(si) + d
    decreases d
  {
    if d > 0 {
      assert Levels(si, d)[1..] == Levels(si[1..], d - 1);
      TotalOfLevels(si[1..], d - 1);
    } else {
      assert si[1..] == [];
    }
  }

  /** The coefficient of a kept sequence is the signed binomial of its slack. */
  lemma CoefficientOfSlack(si: seq<nat>, l: nat, d: nat)
    requires l > 0 && Kept(si, d) && Sets.Total(si) == l - 1
    ensures l <= Sets.Total(Levels(si, d)) < l + d
    ensures Coefficient(l, d, Sets.Total(Levels(si, d))) == Signed(d - 1, si[d])
  {
    TotalOfLevels(si, d);
    ChooseSymmetric(d - 1, si[d]);
  }

  /** Each summand comes from a kept sequence of the enumeration. */
  lemma {:induction false} SummandSource(ss: seq<seq<nat>>, d: nat, k: nat) returns (j: nat)
    requires k < |Kepts(ss, d)|
    ensures j < |ss| && Kept(ss[j], d) && Kepts(ss, d)[k] == Levels(ss[j], d)
    decreases |ss|
  {
    var n := |ss| - 1;
    if k < |Kepts(ss[..n], d)| {
      j := SummandSource(ss[..n], d, k);
    } else {
      j := n;
    }
  }

  lemma SummandTotal(l: nat, d: nat, k: nat)
    requires l > 0 && d > 0 && k < |Summands(l, d)|
    ensures l <= Sets.Total(Summands(l, d)[k]) < l + d
  {
    var j := SummandSource(Sets.All(l - 1, d + 1), d, k);
    Sets.AllSound(l - 1, d + 1);
    CoefficientOfSlack(Sets.All(l - 1, d + 1)[j], l, d);
  }

  /** There is a summand: the one with all slack in the first level. */
  lemma SummandsExist(l: nat, d: nat)
    requires l > 0 && d > 0
    ensures |Summands(l, d)| > 0
  {
    var si: seq<nat> := [l - 1] + Zeros(d);
    Sets.ZerosTotal(Zeros(d));
    assert si[1..] == Zeros(d);
    var k := Sets.AllComplete(si);
    KeptStays(Sets.All(l - 1, d + 1), d, k);
  }

  lemma {:induction false} KeptStays(ss: seq<seq<nat>>, d: nat, k: nat)
    requires k < |ss| && Kept(ss[k], d)
    ensures |Kepts(ss, d)| > 0
    decreases |ss|
  {
    var n := |ss| - 1;
    if k < n { KeptStays(ss[..n], d, k); }
  }

  class SmolyakQuadrature {
    const dim: nat
    const level: nat
    const uquad: Rule
    const levels: seq<seq<nat>>
    const levpoints: seq<seq<nat>>
    const cumevals: seq<nat>

    ghost predicate Valid() {
      && dim > 0 && level > 0 && Inhabited(uquad)
      && levels == Summands(level, dim) && |levels| > 0
      && |levpoints| == |cumevals| == |levels|
      && (forall k :: 0 <= k < |levels| ==> levpoints[k] == Points(uquad, levels[k]))
      && (forall k :: 0 <= k < |levels| ==> cumevals[k] == Cumulated(uquad, levels, k + 1))
    }

    constructor (d: nat, l: nat, q: Rule)
      requires d > 0 && l > 0 && Inhabited(q)
      ensures Valid() && dim == d && level == l && uquad == q
    {
      hide Points, Size, Cumulated, Kepts, Levels, Sets.All;
      var cum := 0;
      CumulatedNone(q);
      KeptsNone(d);
      var levs: seq<seq<nat>>, points: seq<seq<nat>>, cums: seq<nat> := [], [], [];
      var it := new Sets.SymIterator(l - 1, d + 1);
      ghost var ss := Sets.All(l - 1, d + 1);
      while !it.AtEnd()
        invariant it.Valid() && it.dim == l - 1 && it.run.Length == d + 1 && fresh(it) && fresh(it.run)
        invariant levs == Kepts(ss[..it.at], d)
        invariant |points| == |cums| == |levs| && cum == Cumulated(q, levs, |levs|)
        invariant forall k :: 0 <= k < |levs| ==> points[k] == Points(q, levs[k])
        invariant forall k :: 0 <= k < |levs| ==> cums[k] == Cumulated(q, levs, k + 1)
        decreases |ss| - it.at
      {
        var si := it.run[..];
        KeptsExtends(ss, d, it.at);
        if si[d] <= d - 1 {
          CumulatedExtends(q, levs, Levels(si, d));
          var lev := Levels(si, d);
          levs := levs + [lev];
          points := points + [Points(q, lev)];
          cum := cum + Size(Points(q, lev));
          cums := cums + [cum];
        }
        it.Increment();
      }
      assert ss[..it.at] == ss;
      SummandsExist(l, d);
      dim, level, uquad, levels, levpoints, cumevals := d, l, q, levs, points, cums;
    }

    /** The sum of the levels of a summand. */
    function SumLevels(i: nat): (sumk: nat)
      requires Valid() && i < |levels|
      ensures level <= sumk < level + dim
    {
      SummandTotal(level, dim, i);
      Sets.Total(levels[i])
    }

    ghost function Total(): nat
      requires Valid()
    {
      Cumulated(uquad, levels, |levels|)
    }

    /** The number of points of the quadrature of level l. */
    method NumEvals(l: nat) returns (res: nat)
      requires Valid() && l > 0
      ensures res == Cumulated(uquad, Summands(l, dim), |Summands(l, dim)|)
    {
      if l != level {
        res := CalcNumEvaluations(l);
      } else {
        res := cumevals[|levels| - 1];
      }
    }

    method CalcNumEvaluations(lev: nat) returns (cum: nat)
      requires Valid() && lev > 0
      ensures cum == Cumulated(uquad, Summands(lev, dim), |Summands(lev, dim)|)
    {
      hide Points, Size, Cumulated, Kepts, Levels, Sets.All;
      cum := 0;
      var it := new Sets.SymIterator(lev - 1, dim + 1);
      ghost var ss := Sets.All(lev - 1, dim + 1);
      ghost var levs: seq<seq<nat>> := [];
      CumulatedNone(uquad);
      KeptsNone(dim);
      while !it.AtEnd()
        invariant it.Valid() && it.dim == lev - 1 && it.run.Length == dim + 1 && fresh(it) && fresh(it.run)
        invariant levs == Kepts(ss[..it.at], dim) && cum == Cumulated(uquad, levs, |levs|)
        decreases |ss| - it.at
      {
        var si := it.run[..];
        KeptsExtends(ss, dim, it.at);
        if si[dim] <= dim - 1 {
          CumulatedExtends(uquad, levs, Levels(si, dim));
          levs := levs + [Levels(si, dim)];
          cum := cum + Size(Points(uquad, Levels(si, dim)));
        }
        it.Increment();
      }
      assert ss[..it.at] == ss;
    }

    /** The last summand, from isum on, before which fewer than evals points lie. */
    function Scan(evals: nat, isum: nat): (r: nat)
      requires Valid() && isum < |levels|
      ensures isum <= r < |levels|
      ensures forall k :: isum < k <= r ==> cumevals[k] < evals
      ensures r + 1 == |levels| || cumevals[r + 1] >= evals
      decreases |levels| - isum
    {
      if isum + 1 < |levels| && cumevals[isum + 1] < evals then Scan(evals, isum + 1) else isum
    }

    /** The summand at which portion ti of tn begins. */
    ghost function StartSummand(ti: nat, tn: nat): nat
      requires Valid() && tn > 0
    {
      if ti == tn then |levels| else Scan(Share(ti, Total(), tn), 0)
    }

    ghost function Start(tn: nat): nat -> nat
      requires Valid() && tn > 0
    {
      (ti: nat) => Cumulated(uquad, levels, StartSummand(ti, tn))
    }

    method Begin(ti: nat, tn: nat) returns (it: SmolPit)
      requires Valid() && ti <= tn && tn > 0
      ensures it.Valid() && fresh(it) && fresh(it.jseq) && fresh(it.p) && it.smolq == this
      ensures it.Position() == Start(tn)(ti)
    {
      if ti == tn {
        it := new SmolPit(this, |levels|);
        return;
      }
      var totevals := cumevals[|levels| - 1];
      var evals := Share(ti, totevals, tn);
      var isum := 0;
      while isum + 1 < |levels| && cumevals[isum + 1] < evals
        invariant 0 <= isum < |levels| && Scan(evals, isum) == Scan(evals, 0)
      {
        isum := isum + 1;
      }
      it := new SmolPit(this, isum);
    }

    lemma ScanMonotone(a: nat, b: nat)
      requires Valid() && a <= b
      ensures Scan(a, 0) <= Scan(b, 0)
    {
      var i, j := Scan(a, 0), Scan(b, 0);
      assert j + 1 == |levels| || cumevals[j + 1] >= b;
    }

    lemma PortionsSplit(tn: nat)
      requires Valid() && tn > 0
      ensures Split(Start(tn), tn, Total())
    {
      hide Share;
      var n := Total();
      ShareEnds(n, tn);
      assert Scan(0, 0) == 0;
      forall ti: nat | ti < tn
        ensures InOrder(Start(tn), ti)
      {
        ShareMonotone(ti, ti + 1, n, tn);
        ScanMonotone(Share(ti, n, tn), Share(ti + 1, n, tn));
        CumulatedGrows(uquad, levels, StartSummand(ti, tn), StartSummand(ti + 1, tn));
      }
    }

    /** The summand that the position v lies in, from summand i on. */
    ghost function SummandAt(v: nat, i: nat): (r: nat)
      requires Valid() && i <= |levels| && Cumulated(uquad, levels, i) <= v
      ensures i <= r <= |levels| && Cumulated(uquad, levels, r) <= v
      ensures r < |levels| ==> v < Cumulated(uquad, levels, r + 1)
      decreases |levels| - i
    {
      if i < |levels| && v >= Cumulated(uquad, levels, i + 1) then SummandAt(v, i + 1) else i
    }

    lemma SummandOf(i: nat, u: nat)
      requires Valid() && i < |levels| && u < Size(Points(uquad, levels[i]))
      ensures SummandAt(Cumulated(uquad, levels, i) + u, 0) == i
    {
      var v := Cumulated(uquad, levels, i) + u;
      var r := SummandAt(v, 0);
      if r < i { CumulatedGrows(uquad, levels, r + 1, i); }
      if i < r { CumulatedGrows(uquad, levels, i + 1, r); }
    }

    /** What the point at position v adds to the quadrature of f. */
    ghost function Part(f: seq<real> -> real, v: nat): real
      requires Valid()
    {
      var i := SummandAt(v, 0);
      if i < |levels| then
        Mul(Coefficient(level, dim, SumLevels(i)), Contribution(uquad, levels[i], f, v - Cumulated(uquad, levels, i)))
      else 0.0
    }

    ghost function Parts(f: seq<real> -> real): nat -> real
      requires Valid()
    {
      (v: nat) => Part(f, v)
    }

    /** What a summand adds to the quadrature of f. */
    ghost function SummandTotals(f: seq<real> -> real): nat -> real
      requires Valid()
    {
      (i: nat) => if i < |levels| then Mul(Coefficient(level, dim, SumLevels(i)), GridTotal(uquad, levels[i], f)) else 0.0
    }

    /** The points of a summand together add its tensor sum, with the coefficient. */
    lemma SummandSum(f: seq<real> -> real, i: nat)
      requires Valid() && i < |levels|
      ensures Cumulated(uquad, levels, i) <= Cumulated(uquad, levels, i + 1)
      ensures Sum(Parts(f), Cumulated(uquad, levels, i), Cumulated(uquad, levels, i + 1)) == SummandTotals(f)(i)
    {
      hide Mul, Sum, Contribution, Coefficient, Size;
      var first, n := Cumulated(uquad, levels, i), Size(Points(uquad, levels[i]));
      var co := Coefficient(level, dim, SumLevels(i));
      var own := Values(uquad, levels[i], f);
      var scaled := (u: nat) => Mul(co, own(u));
      forall u: nat | 0 <= u < n
        ensures Parts(f)(u + first) == scaled(u)
      {
        SummandOf(i, u);
      }
      SumShift(scaled, Parts(f), 0, n, first);
      SumScale(co, own, scaled, 0, n);
    }

    lemma {:induction false} SummandsSum(f: seq<real> -> real, k: nat)
      requires Valid() && k <= |levels|
      ensures Sum(Parts(f), 0, Cumulated(uquad, levels, k)) == Sum(SummandTotals(f), 0, k)
      decreases k
    {
      hide Sum, Parts, SummandTotals;
      if k == 0 {
        SumEmpty(Parts(f), 0);
        SumEmpty(SummandTotals(f), 0);
      } else {
        SummandsSum(f, k - 1);
        SummandSum(f, k - 1);
        SumSplit(Parts(f), 0, Cumulated(uquad, levels, k - 1), Cumulated(uquad, levels, k));
        SumLast(SummandTotals(f), 0, k - 1);
      }
    }

    /** A worker adds the portion ti of tn to outvec. */
    method Work(func: seq<real> -> seq<real>, ti: nat, tn: nat, outvec: array<real>)
      requires Valid() && ti < tn && forall p: seq<real> :: |func(p)| == outvec.Length
      modifies outvec
      ensures forall c :: 0 <= c < outvec.Length ==> outvec[c] == old(outvec[c]) + PortionSum(Parts(Component(func, c)), Start(tn), ti)
    {
      hide *;
      PortionInOrder(tn, ti);
      var run := Begin(ti, tn);
      var end := Begin(ti + 1, tn);
      var tmpall := new real[outvec.Length](_ => 0.0);
      ghost var from := run.Position();
      forall c: nat | c < outvec.Length
        ensures Sum(Parts(Component(func, c)), from, from) == 0.0
      {
        SumEmpty(Parts(Component(func, c)), from);
      }
      var done := run.Equals(end);
      while !done
        invariant run.Valid() && end.Valid() && run.smolq == end.smolq == this
        invariant from == Start(tn)(ti) <= run.Position() <= end.Position() == Start(tn)(ti + 1)
        invariant done <==> run.Position() == end.Position()
        invariant forall c :: 0 <= c < outvec.Length ==> tmpall[c] == Sum(Parts(Component(func, c)), from, run.Position())
        invariant outvec[..] == old(outvec[..])
        decreases end.Position() - run.Position()
      {
        BeforeEnd(run, end);
        Visit(run, func, tmpall, from);
        done := run.Equals(end);
      }
      AddScaled(outvec, 1.0, tmpall[..]);
      forall c | 0 <= c < outvec.Length
        ensures Mul(1.0, tmpall[c]) == PortionSum(Parts(Component(func, c)), Start(tn), ti)
      {
        MulUnits(tmpall[c]);
        PortionAt(Parts(Component(func, c)), Start(tn), ti);
      }
    }

    lemma PortionInOrder(tn: nat, ti: nat)
      requires Valid() && ti < tn
      ensures Start(tn)(ti) <= Start(tn)(ti + 1)
    {
      hide Start;
      PortionsSplit(tn);
      assert InOrder(Start(tn), ti);
    }

    lemma BeforeEnd(run: SmolPit, end: SmolPit)
      requires run.Valid() && end.Valid() && run.smolq == end.smolq == this && run.Position() < end.Position()
      ensures run.isummand < |levels|
    {
      hide Cumulated;
      end.PositionBounds();
      if end.isummand < |levels| { CumulatedGrows(uquad, levels, end.isummand + 1, |levels|); }
    }

    /** Adds the value at the iterator's point and steps on. */
    method Visit(run: SmolPit, func: seq<real> -> seq<real>, tmpall: array<real>, ghost from: nat)
      requires run.Valid() && run.isummand < |levels| && run.smolq == this && tmpall != run.p && from <= run.Position()
      requires forall p: seq<real> :: |func(p)| == tmpall.Length
      requires forall c :: 0 <= c < tmpall.Length ==> tmpall[c] == Sum(Parts(Component(func, c)), from, run.Position())
      modifies run`isummand, run`w, run.jseq, run.p, tmpall
      ensures run.Valid() && run.Position() == old(run.Position()) + 1
      ensures forall c :: 0 <= c < tmpall.Length ==> tmpall[c] == Sum(Parts(Component(func, c)), from, run.Position())
    {
      hide *;
      ValidNow(run);
      var tmp := func(run.p[..]);
      forall c: nat | c < tmpall.Length
        ensures Sum(Parts(Component(func, c)), from, run.Position() + 1) ==
          Sum(Parts(Component(func, c)), from, run.Position()) + Mul(run.w, tmp[c])
      {
        OnePoint(run, func, c, from);
      }
      AddScaled(tmpall, run.w, tmp);
      run.Increment();
    }

    lemma ValidNow(run: SmolPit)
      requires run.Valid() && run.smolq == this
      ensures Valid()
    {
    }

    /** The iterator's weight and point are those of its position. */
    lemma OnePoint(run: SmolPit, func: seq<real> -> seq<real>, c: nat, from: nat)
      requires Valid() && run.Valid() && run.smolq == this && run.isummand < |levels| && from <= run.Position()
      requires c < |func(run.p[..])|
      ensures Sum(Parts(Component(func, c)), from, run.Position() + 1) ==
        Sum(Parts(Component(func, c)), from, run.Position()) + Mul(run.w, func(run.p[..])[c])
    {
      hide Sum, Value, GridWeight, GridPoint, Mul, Size, Coefficient;
      var i := run.isummand;
      var r := Points(uquad, levels[i]);
      DigitsAtValue(run.jseq[..], r);
      ValueBound(run.jseq[..], r);
      SummandOf(i, Value(run.jseq[..], r));
      MulAssociates(Coefficient(level, dim, SumLevels(i)), GridWeight(uquad, levels[i], run.jseq[..]), func(run.p[..])[c]);
      SumLast(Parts(Component(func, c)), from, run.Position());
    }

    /** Integrates with tn workers that add to outvec in the given order. */
    method Integrate(func: seq<real> -> seq<real>, tn: nat, outvec: array<real>, order: seq<nat>)
      requires Valid() && tn > 0 && Schedule(order, tn) && forall p: seq<real> :: |func(p)| == outvec.Length
      modifies outvec
      ensures forall c :: 0 <= c < outvec.Length ==> outvec[c] == Sum(SummandTotals(Component(func, c)), 0, |levels|)
    {
      hide *;
      var c := 0;
      while c < outvec.Length
        invariant 0 <= c <= outvec.Length
        invariant forall k :: 0 <= k < c ==> outvec[k] == 0.0
      {
        outvec[c] := 0.0;
        c := c + 1;
      }
      var k := 0;
      ScheduleBounds(order, tn);
      forall c: nat | c < outvec.Length
        ensures OrderSum(PortionSums(Parts(Component(func, c)), Start(tn)), order[..0]) == 0.0
      {
        OrderSumNone(PortionSums(Parts(Component(func, c)), Start(tn)));
        assert order[..0] == [];
      }
      while k < tn
        invariant 0 <= k <= tn
        invariant forall c :: 0 <= c < outvec.Length ==>
          outvec[c] == OrderSum(PortionSums(Parts(Component(func, c)), Start(tn)), order[..k])
      {
        Work(func, order[k], tn, outvec);
        assert order[..k + 1] == order[..k] + [order[k]];
        forall c | 0 <= c < outvec.Length
          ensures OrderSum(PortionSums(Parts(Component(func, c)), Start(tn)), order[..k + 1]) ==
            OrderSum(PortionSums(Parts(Component(func, c)), Start(tn)), order[..k]) + PortionSum(Parts(Component(func, c)), Start(tn), order[k])
        {
          OrderSumLast(PortionSums(Parts(Component(func, c)), Start(tn)), order[..k], order[k]);
          PortionInOrder(tn, order[k]);
          PortionAt(Parts(Component(func, c)), Start(tn), order[k]);
        }
        k := k + 1;
      }
      assert order[..tn] == order;
      forall c | 0 <= c < outvec.Length
        ensures outvec[c] == Sum(SummandTotals(Component(func, c)), 0, |levels|)
      {
        PortionsSplit(tn);
        ParallelIsSequential(Parts(Component(func, c)), Start(tn), tn, Total(), order);
        TotalIs();
        SummandsSum(Component(func, c), |levels|);
      }
    }

    lemma TotalIs()
      requires Valid()
      ensures Total() == Cumulated(uquad, levels, |levels|)
    {
    }
  }

  class SmolPit {
    const smolq: SmolyakQuadrature
    const jseq: array<nat>
    const p: array<real>
    var isummand: nat
    var w: real

    ghost predicate Valid()
      reads this, jseq, p
    {
      && smolq.Valid() && jseq.Length == p.Length == smolq.dim
      && isummand <= |smolq.levels|
      && (isummand == |smolq.levels| ==> jseq[..] == Zeros(smolq.dim))
      && (isummand < |smolq.levels| ==> AtPoint())
    }

    ghost predicate AtPoint()
      requires smolq.Valid() && jseq.Length == p.Length == smolq.dim && isummand < |smolq.levels|
      reads this, jseq, p
    {
      && Digits(jseq[..], smolq.levpoints[isummand])
      && p[..] == GridPoint(smolq.uquad, smolq.levels[isummand], jseq[..])
      && w == Mul(Coefficient(smolq.level, smolq.dim, smolq.SumLevels(isummand)), GridWeight(smolq.uquad, smolq.levels[isummand], jseq[..]))
    }

    /** The number of points before this one. */
    ghost function Position(): nat
      requires Valid()
      reads this, jseq, p
    {
      Cumulated(smolq.uquad, smolq.levels, isummand) +
      if isummand < |smolq.levels| then Value(jseq[..], smolq.levpoints[isummand]) else 0
    }

    /** The iterator at the beginning of a summand, or past the end. */
    constructor (q: SmolyakQuadrature, isum: nat)
      requires q.Valid() && isum <= |q.levels|
      ensures Valid() && fresh(jseq) && fresh(p) && smolq == q
      ensures Position() == Cumulated(q.uquad, q.levels, isum)
    {
      hide Value, Size, Cumulated;
      smolq, isummand := q, isum;
      jseq := new nat[q.dim](_ => 0);
      p := new real[q.dim](_ => 0.0);
      w := 0.0;
      new;
      assert jseq[..] == Zeros(q.dim);
      if isummand < |q.levels| {
        ZeroDigits(q.uquad, q.levels[isum]);
        SetPointAndWeight();
      }
    }

    method SetPointAndWeight()
      requires smolq.Valid() && jseq.Length == p.Length == smolq.dim && isummand < |smolq.levels|
      requires Digits(jseq[..], smolq.levpoints[isummand])
      modifies this`w, p
      ensures AtPoint()
    {
      hide Choose, Mul, GridPoint, GridWeight, Sign;
      var l, d := smolq.level, smolq.dim;
      var sumk := smolq.SumLevels(isummand);
      var m1exp := l + d - sumk - 1;
      w := if 2 * (m1exp / 2) == m1exp then 1.0 else -1.0;
      SignIsParity(m1exp);
      w := Mul(w, Choose(d - 1, sumk - l) as real);
      w := SetPoint(smolq.uquad, smolq.levels[isummand], jseq, p, w);
    }

    /** Steps within the summand, or to the beginning of the next one. */
    method Increment()
      requires Valid() && isummand < |smolq.levels|
      modifies this`isummand, this`w, jseq, p
      ensures Valid() && Position() == old(Position()) + 1
    {
      hide Value, Size;
      var i := Advance(jseq, smolq.levpoints[isummand]);
      if i < 0 {
        isummand := isummand + 1;
        if isummand < |smolq.levels| {
          ZeroDigits(smolq.uquad, smolq.levels[isummand]);
        }
      }
      if isummand < |smolq.levels| {
        SetPointAndWeight();
      }
    }

    /** Iterators are equal exactly when they are at the same position. */
    method Equals(other: SmolPit) returns (r: bool)
      requires Valid() && other.Valid()
      ensures smolq == other.smolq ==> (r <==> Position() == other.Position())
    {
      r := smolq == other.smolq && isummand == other.isummand && jseq[..] == other.jseq[..];
      if smolq == other.smolq {
        PositionsDiffer(other);
      }
    }

    lemma PositionsDiffer(other: SmolPit)
      requires Valid() && other.Valid() && smolq == other.smolq
      ensures Position() == other.Position() <==> isummand == other.isummand && jseq[..] == other.jseq[..]
    {
      hide Value, Size, Cumulated;
      PositionBounds();
      other.PositionBounds();
      if isummand < other.isummand {
        CumulatedGrows(smolq.uquad, smolq.levels, isummand + 1, other.isummand);
      } else if other.isummand < isummand {
        CumulatedGrows(smolq.uquad, smolq.levels, other.isummand + 1, isummand);
      } else if isummand < |smolq.levels| {
        var r := smolq.levpoints[isummand];
        DigitsAtValue(jseq[..], r);
        DigitsAtValue(other.jseq[..], r);
      }
    }

    lemma PositionBounds()
      requires Valid()
      ensures Cumulated(smolq.uquad, smolq.levels, isummand) <= Position()
      ensures isummand < |smolq.levels| ==> Position() < Cumulated(smolq.uquad, smolq.levels, isummand + 1)
    {
      if isummand < |smolq.levels| {
        ValueBound(jseq[..], smolq.levpoints[isummand]);
      }
    }
  }

  lemma ZeroDigits(q: Rule, lev: seq<nat>)
    requires Inhabited(q)
    ensures Digits(Zeros(|lev|), Points(q, lev)) && Value(Zeros(|lev|), Points(q, lev)) == 0
  {
    ValueOfZeros(Points(q, lev));
  }

  lemma KeptsExtends(ss: seq<seq<nat>>, d: nat, k: nat)
    requires k < |ss|
    ensures Kepts(ss[..k + 1], d) == Kepts(ss[..k], d) + if Kept(ss[k], d) then [Levels(ss[k], d)] else []
  {
    assert ss[..k + 1][..k] == ss[..k];
  }

  lemma KeptsNone(d: nat)
    ensures Kepts([], d) == []
  {
  }

  lemma CumulatedNone(q: Rule)
    ensures Cumulated(q, [], 0) == 0
  {
  }

  lemma {:induction false} CumulatedPrefix(q: Rule, levels: seq<seq<nat>>, lev: seq<nat>, k: nat)
    requires k <= |levels|
    ensures Cumulated(q, levels + [lev], k) == Cumulated(q, levels, k)
    decreases k
  {
    if k > 0 { CumulatedPrefix(q, levels, lev, k - 1); }
  }

  lemma CumulatedExtends(q: Rule, levels: seq<seq<nat>>, lev: seq<nat>)
    ensures forall k :: 0 <= k <= |levels| ==> Cumulated(q, levels + [lev], k) == Cumulated(q, levels, k)
    ensures Cumulated(q, levels + [lev], |levels| + 1) == Cumulated(q, levels, |levels|) + Size(Points(q, lev))
  {
    forall k | 0 <= k <= |levels|
      ensures Cumulated(q, levels + [lev], k) == Cumulated(q, levels, k)
    {
      CumulatedPrefix(q, levels, lev, k);
    }
  }

  /** The level-l term of the combination for a function of coordinate c: what the summand's
      level along c gives in one dimension, times the total weights of the other coordinates. */
  function LevelTerm(q: Rule, h: real -> real, w: real, d: nat): nat -> real
    requires d > 0
  {
    (m: nat) => Mul(RealPower(w, d - 1), Apply(q, m + 1, h))
  }

  function SlackTerm(q: Rule, h: real -> real, w: real, d: nat, c: nat): seq<nat> -> real
    requires c < d
  {
    si => if |si| == d + 1 then Mul(LevelTerm(q, h, w, d)(si[c]), Signed(d - 1, si[d])) else 0.0
  }

  /** The same from the levels alone, as the iterator computes it. */
  function SummandTerm(q: Rule, f: seq<real> -> real, l: nat, d: nat): seq<nat> -> real
    requires d > 0
  {
    lev => if l <= Sets.Total(lev) < l + d then Mul(Coefficient(l, d, Sets.Total(lev)), GridTotal(q, lev, f)) else 0.0
  }

  lemma KeptTerm(q: Rule, f: seq<real> -> real, h: real -> real, w: real, l: nat, d: nat, c: nat, si: seq<nat>)
    requires Inhabited(q) && Normalized(q, w) && Looks(f, h, c, d) && l > 0
    requires |si| == d + 1 && Sets.Total(si) == l - 1
    ensures Kept(si, d) ==> SummandTerm(q, f, l, d)(Levels(si, d)) == SlackTerm(q, h, w, d, c)(si)
    ensures !Kept(si, d) ==> SlackTerm(q, h, w, d, c)(si) == 0.0
  {
    hide Mul, Signed, GridTotal, Apply, Coefficient, RealPower, Normalized, Inhabited;
    if Kept(si, d) {
      var lev, total := Levels(si, d), LevelTerm(q, h, w, d)(si[c]);
      CoefficientOfSlack(si, l, d);
      CoordinateTotal(q, lev, f, h, c, w);
      assert lev[c] == si[c] + 1;
      assert GridTotal(q, lev, f) == total;
      assert SummandTerm(q, f, l, d)(lev) == Mul(Signed(d - 1, si[d]), total);
      MulCommutes(total, Signed(d - 1, si[d]));
    } else {
      SlackBeyond(d - 1, si[d]);
      MulUnits(LevelTerm(q, h, w, d)(si[c]));
    }
  }

  /** The sequences that are not kept add nothing. */
  lemma {:induction false} KeptsSum(ss: seq<seq<nat>>, d: nat, t: seq<nat> -> real, g: seq<nat> -> real)
    requires forall k :: 0 <= k < |ss| ==> |ss[k]| == d + 1 && (if Kept(ss[k], d) then t(Levels(ss[k], d)) == g(ss[k]) else g(ss[k]) == 0.0)
    ensures ListSum(t, Kepts(ss, d)) == ListSum(g, ss)
    decreases |ss|
  {
    hide ListSum;
    if |ss| == 0 {
      ListSumNone(t);
      ListSumNone(g);
      assert ss == [];
    } else {
      var n := |ss| - 1;
      KeptsSum(ss[..n], d, t, g);
      assert ss == ss[..n] + [ss[n]];
      ListSumLast(g, ss[..n], ss[n]);
      if Kept(ss[n], d) {
        ListSumLast(t, Kepts(ss[..n], d), Levels(ss[n], d));
      } else {
        assert Kepts(ss, d) == Kepts(ss[..n], d);
      }
    }
  }

  lemma ListSumNone(g: seq<nat> -> real)
    ensures ListSum(g, []) == 0.0
  {
  }

  /** The combination over all summands. */
  lemma SummandsReproduce(q: Rule, l: nat, d: nat, f: seq<real> -> real, h: real -> real, c: nat, w: real)
    requires Inhabited(q) && Normalized(q, w) && Looks(f, h, c, d) && l > 0
    ensures ListSum(SummandTerm(q, f, l, d), Summands(l, d)) == Mul(RealPower(w, d - 1), Apply(q, l, h))
  {
    hide Mul, Signed, GridTotal, Apply, Coefficient, RealPower, Sum, ListSum, Kepts, Kept, SummandTerm, Levels;
    var ss := Sets.All(l - 1, d + 1);
    var t, g := SummandTerm(q, f, l, d), SlackTerm(q, h, w, d, c);
    Sets.AllSound(l - 1, d + 1);
    forall k | 0 <= k < |ss|
      ensures |ss[k]| == d + 1 && (if Kept(ss[k], d) then t(Levels(ss[k], d)) == g(ss[k]) else g(ss[k]) == 0.0)
    {
      KeptTerm(q, f, h, w, l, d, c, ss[k]);
    }
    KeptsSum(ss, d, t, g);
    assert OfItem(g, LevelTerm(q, h, w, d), c, d - 1, d + 1);
    CombinationReproduces(g, LevelTerm(q, h, w, d), c, d, l - 1);
  }

  lemma SummandTermsSum(s: SmolyakQuadrature, f: seq<real> -> real)
    requires s.Valid()
    ensures Sum(s.SummandTotals(f), 0, |s.levels|) == ListSum(SummandTerm(s.uquad, f, s.level, s.dim), s.levels)
  {
    hide Mul, GridTotal, Coefficient, Sum, ListSum, Summands;
    var t := SummandTerm(s.uquad, f, s.level, s.dim);
    forall i: nat | 0 <= i < |s.levels|
      ensures s.SummandTotals(f)(i) == Listed(t, s.levels)(i)
    {
      assert s.SumLevels(i) == Sets.Total(s.levels[i]);
    }
    SumSame(s.SummandTotals(f), Listed(t, s.levels), 0, |s.levels|);
    ListSumIsSum(t, s.levels, |s.levels|);
    assert s.levels[..|s.levels|] == s.levels;
  }

  /** The Smolyak rule reproduces the one-dimensional rule: on a function of one coordinate its
      signed sum is the level-l one-dimensional rule, times the total weight once for each
      other coordinate. */
  lemma SmolyakReproduces(s: SmolyakQuadrature, f: seq<real> -> real, h: real -> real, c: nat, w: real)
    requires s.Valid() && Normalized(s.uquad, w) && Looks(f, h, c, s.dim)
    ensures Sum(s.SummandTotals(f), 0, |s.levels|) == Mul(RealPower(w, s.dim - 1), Apply(s.uquad, s.level, h))
  {
    SummandTermsSum(s, f);
    SummandsReproduce(s.uquad, s.level, s.dim, f, h, c, w);
  }

  function One(): seq<real> -> real {
    _ => 1.0
  }

  /** All weights of the Smolyak rule sum to the total weight to the power of the dimension. */
  lemma SmolyakWeights(s: SmolyakQuadrature, w: real)
    requires s.Valid() && Normalized(s.uquad, w)
    ensures Sum(s.SummandTotals(One()), 0, |s.levels|) == RealPower(w, s.dim)
  {
    hide GridTotal, Sum, Mul;
    var one: real -> real := _ => 1.0;
    SmolyakReproduces(s, One(), one, 0, w);
    forall j: nat | 0 <= j < s.uquad.numPoints(s.level)
      ensures Weighted(s.uquad, s.level, one)(j) == Weights(s.uquad, s.level)(j)
    {
      MulUnits(s.uquad.weight(s.level, j));
    }
    SumSame(Weighted(s.uquad, s.level, one), Weights(s.uquad, s.level), 0, s.uquad.numPoints(s.level));
    MulCommutes(RealPower(w, s.dim - 1), w);
  }
}
