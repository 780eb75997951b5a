/** Splitting a range of positions into portions, and adding the portions up in any order. */
module Portions {
  import opened Reals
  import opened RealSums

  /** starts(ti) is where portion ti begins; tn portions cover [0, n). */
  ghost predicate Split(starts: nat -> nat, tn: nat, n: nat) {
    && starts(0) == 0 && starts(tn) == n
    && forall i: nat :: i < tn ==> InOrder(starts, i)
  }

  predicate InOrder(starts: nat -> nat, i: nat) {
    starts(i) <= starts(i + 1)
  }

  lemma {:induction false} StartsGrow(starts: nat -> nat, tn: nat, n: nat, i: nat, j: nat)
    requires Split(starts, tn, n) && i <= j <= tn
    ensures starts(0) == 0 && starts(i) <= starts(j)
    decreases j - i
  {
    if i < j {
      StartsGrow(starts, tn, n, i, j - 1);
      assert InOrder(starts, j - 1);
    }
  }

  /** Each position lies in exactly one portion. */
  lemma EachPositionOnce(starts: nat -> nat, tn: nat, n: nat, v: nat) returns (ti: nat)
    requires Split(starts, tn, n) && v < n
    ensures ti < tn && starts(ti) <= v < starts(ti + 1)
    ensures forall i: nat :: i < tn && starts(i) <= v < starts(i + 1) ==> i == ti
  {
    ti := 0;
    while starts(ti + 1) <= v
      invariant ti < tn && starts(ti) <= v
      decreases tn - ti
    {
      ti := ti + 1;
    }
    forall i: nat | i < tn && starts(i) <= v < starts(i + 1)
      ensures i == ti
    {
      if i < ti { StartsGrow(starts, tn, n, i + 1, ti); }
      if ti < i { StartsGrow(starts, tn, n, ti + 1, i); }
    }
  }

  /** The sum over each portion. */
  function PortionSums(f: nat -> real, starts: nat -> nat): nat -> real {
    (ti: nat) => PortionSum(f, starts, ti)
  }

  function PortionSum(f: nat -> real, starts: nat -> nat, ti: nat): real {
    if starts(ti) <= starts(ti + 1) then Sum(f, starts(ti), starts(ti + 1)) else 0.0
  }

  lemma PortionAt(f: nat -> real, starts: nat -> nat, ti: nat)
    requires starts(ti) <= starts(ti + 1)
    ensures PortionSums(f, starts)(ti) == PortionSum(f, starts, ti) == Sum(f, starts(ti), starts(ti + 1))
  {
  }

  lemma {:induction false} PortionsCover(f: nat -> real, starts: nat -> nat, tn: nat, n: nat, k: nat)
    requires Split(starts, tn, n) && k <= tn
    ensures Sum(PortionSums(f, starts), 0, k) == Sum(f, 0, starts(k))
    decreases k
  {
    hide *;
    if k == 0 {
      StartsGrow(starts, tn, n, 0, 0);
      SumEmpty(PortionSums(f, starts), 0);
      SumEmpty(f, 0);
    } else {
      SumLast(PortionSums(f, starts), 0, k - 1);
      PortionsCover(f, starts, tn, n, k - 1);
      StartsGrow(starts, tn, n, k - 1, k);
      PortionAt(f, starts, k - 1);
      SumSplit(f, 0, starts(k - 1), starts(k));
    }
  }

  /** The workers 0 .. tn-1, each once, in the order in which they get the lock. */
  ghost predicate Schedule(order: seq<nat>, tn: nat) {
    && |order| == tn
    && (forall i :: 0 <= i < tn ==> order[i] < tn)
    && Distinct(order)
  }

  function OrderSum(p: nat -> real, order: seq<nat>): real {
    if |order| == 0 then 0.0 else OrderSum(p, order[..|order| - 1]) + p(order[|order| - 1])
  }

  lemma {:induction false} OrderSumConcat(p: nat -> real, a: seq<nat>, b: seq<nat>)
    ensures OrderSum(p, a + b) == OrderSum(p, a) + OrderSum(p, b)
    decreases |b|
  {
    if |b| == 0 {
      assert a + b == a;
    } else {
      assert (a + b)[..|a + b| - 1] == a + b[..|b| - 1];
      OrderSumConcat(p, a, b[..|b| - 1]);
    }
  }

  lemma ScheduleBounds(order: seq<nat>, tn: nat)
    requires Schedule(order, tn)
    ensures |order| == tn && forall i :: 0 <= i < tn ==> order[i] < tn
  {
  }

  lemma OrderSumNone(p: nat -> real)
    ensures OrderSum(p, []) == 0.0
  {
  }

  lemma OrderSumLast(p: nat -> real, a: seq<nat>, x: nat)
    ensures OrderSum(p, a + [x]) == OrderSum(p, a) + p(x)
  {
    assert (a + [x])[..|a|] == a;
  }

  /** A schedule has every worker. */
  lemma {:induction false} ScheduleHas(order: seq<nat>, tn: nat) returns (k: nat)
    requires Schedule(order, tn) && tn > 0
    ensures k < tn && order[k] == tn - 1
  {
    if forall k :: 0 <= k < tn ==> order[k] != tn - 1 {
      Pigeons(order, tn - 1);
      assert false;
    }
    k :| 0 <= k < tn && order[k] == tn - 1;
  }

  ghost predicate Distinct(s: seq<nat>) {
    forall i, j :: 0 <= i < j < |s| ==> s[i] != s[j]
  }

  function Without(s: seq<nat>, k: nat): seq<nat>
    requires k < |s|
  {
    s[..k] + s[k + 1..]
  }

  lemma WithoutItem(s: seq<nat>, k: nat)
    requires k < |s| && Distinct(s)
    ensures Distinct(Without(s, k)) && forall i :: 0 <= i < |s| - 1 ==> Without(s, k)[i] in s && Without(s, k)[i] != s[k]
  {
    forall i | 0 <= i < |s| - 1
      ensures Without(s, k)[i] == s[if i < k then i else i + 1]
    {
    }
  }

  /** Too many distinct numbers do not fit below a bound. */
  lemma {:induction false} Pigeons(s: seq<nat>, bound: nat)
    requires (forall i :: 0 <= i < |s| ==> s[i] < bound) && Distinct(s)
    ensures |s| <= bound
    decreases bound
  {
    if |s| > 0 {
      assert s[0] < bound;
      if k :| 0 <= k < |s| && s[k] == bound - 1 {
        WithoutItem(s, k);
        Pigeons(Without(s, k), bound - 1);
      } else {
        Pigeons(s, bound - 1);
      }
    }
  }

  lemma OrderSumWithout(p: nat -> real, s: seq<nat>, k: nat)
    requires k < |s|
    ensures OrderSum(p, s) == OrderSum(p, Without(s, k)) + p(s[k])
  {
    hide OrderSum;
    var a, b := s[..k], s[k + 1..];
    assert s == (a + [s[k]]) + b;
    OrderSumConcat(p, a + [s[k]], b);
    OrderSumLast(p, a, s[k]);
    OrderSumConcat(p, a, b);
  }

  /** Any order of the workers gives the same total. */
  lemma {:induction false} AnyOrder(p: nat -> real, order: seq<nat>, tn: nat)
    requires Schedule(order, tn)
    ensures OrderSum(p, order) == Sum(p, 0, tn)
    decreases tn
  {
    if tn > 0 {
      var k := ScheduleHas(order, tn);
      OrderSumWithout(p, order, k);
      WithoutItem(order, k);
      AnyOrder(p, Without(order, k), tn - 1);
    }
  }

  /** Parallel equals sequential: the portions added in any order give the sum over all positions. */
  lemma ParallelIsSequential(f: nat -> real, starts: nat -> nat, tn: nat, n: nat, order: seq<nat>)
    requires Split(starts, tn, n) && Schedule(order, tn)
    ensures OrderSum(PortionSums(f, starts), order) == Sum(f, 0, n)
  {
    AnyOrder(PortionSums(f, starts), order, tn);
    PortionsCover(f, starts, tn, n, tn);
  }

  /** Adds w times v to a. */
  method AddScaled(a: array<real>, w: real, v: seq<real>)
    requires |v| == a.Length
    modifies a
    ensures forall c :: 0 <= c < a.Length ==> a[c] == old(a[c]) + Mul(w, v[c])
  {
    var c := 0;
    while c < a.Length
      invariant 0 <= c <= a.Length
      invariant forall k :: 0 <= k < a.Length ==> a[k] == old(a[k]) + if k < c then Mul(w, v[k]) else 0.0
    {
      a[c] := a[c] + Mul(w, v[c]);
      c := c + 1;
    }
  }

  /** One component of a vector function. */
  function Component(func: seq<real> -> seq<real>, c: nat): seq<real> -> real {
    p => if c < |func(p)| then func(p)[c] else 0.0
  }
}
