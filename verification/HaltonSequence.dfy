/** Sequences of points whose coordinates are radical inverses in different bases. */
module HaltonSequences {
  import opened RadicalInverses

  class HaltonSequence {
    var num: nat
    const maxn: nat
    const ri: seq<RadicalInverse>
    const per: PermutationScheme
    const pt: array<real>

    ghost const Inverses: set<RadicalInverse>
    ghost const Arrays: set<array<nat>>

    /** No two coordinates share their digits. */
    ghost predicate Apart() {
      && pt.Length == |ri|
      && Inverses == (set i | 0 <= i < |ri| :: ri[i]) && Arrays == (set i | 0 <= i < |ri| :: ri[i].coeff)
      && (forall i, k :: 0 <= i < k < |ri| ==> ri[i] != ri[k] && ri[i].coeff != ri[k].coeff)
      && (forall i :: 0 <= i < |ri| ==> ri[i].base >= 2)
    }

    /** The coordinates from lo on below hi are at number n. */
    ghost predicate Count(lo: nat, hi: nat, n: nat)
      requires lo <= hi <= |ri| && Apart()
      reads Inverses, Arrays
    {
      forall i :: lo <= i < hi ==> ri[i] in Inverses && ri[i].coeff in Arrays && ri[i].Valid() && ri[i].num == n && ri[i].maxn == maxn
    }

    /** The point is the point of number n. */
    ghost predicate AtPoint(n: nat)
      requires Apart()
      reads pt
    {
      forall i :: 0 <= i < |ri| ==> pt[i] == Point(per, ri[i].base, 0, n)
    }

    /** The current point is the point of the current number, as long as that is not past the end. */
    ghost predicate Valid()
      reads this, Inverses, Arrays, pt
    {
      Apart() && Count(0, |ri|, num) && (num <= maxn ==> AtPoint(num))
    }

    constructor (n: nat, mxn: nat, bases: seq<nat>, p: PermutationScheme)
      requires mxn >= 1 && n <= mxn + 1 && forall i :: 0 <= i < |bases| ==> bases[i] >= 2
      ensures Valid() && num == n && maxn == mxn && per == p && |ri| == |bases|
      ensures forall i :: 0 <= i < |ri| ==> ri[i].base == bases[i]
    {
      hide Point, RadicalInverse.Valid;
      var all: seq<RadicalInverse> := [];
      for i := 0 to |bases|
        invariant |all| == i
        invariant forall k :: 0 <= k < i ==> fresh(all[k]) && fresh(all[k].coeff) && all[k].Valid() && all[k].base == bases[k] && all[k].num == n && all[k].maxn == mxn
        invariant forall k, l :: 0 <= k < l < i ==> all[k] != all[l] && all[k].coeff != all[l].coeff
      {
        var r := new RadicalInverse(n, bases[i], mxn);
        all := all + [r];
      }
      num, maxn, ri, per := n, mxn, all, p;
      pt := new real[|all|];
      Inverses, Arrays := set i | 0 <= i < |all| :: all[i], set i | 0 <= i < |all| :: all[i].coeff;
      new;
      Eval();
    }

    method Eval()
      requires Apart() && Count(0, |ri|, num)
      modifies pt
      ensures AtPoint(num) && Count(0, |ri|, num)
    {
      hide Point, RadicalInverse.Valid;
      for i := 0 to |ri|
        invariant forall k :: 0 <= k < i ==> pt[k] == Point(per, ri[k].base, 0, num)
        invariant Count(0, |ri|, num)
      {
        pt[i] := ri[i].Eval(per);
      }
    }

    /** Goes on to the next number in every coordinate; the point is not evaluated past the end. */
    method Increase()
      requires Valid() && num <= maxn
      modifies this`num, Inverses, Arrays, pt
      ensures Valid() && num == old(num) + 1
    {
      hide Point, RadicalInverse.Valid;
      var next := num + 1;
      for i := 0 to |ri|
        invariant Count(0, i, next) && Count(i, |ri|, num) && num + 1 == next
      {
        ri[i].Increase();
      }
      num := next;
      if num <= maxn {
        Eval();
      }
    }
  }
}
