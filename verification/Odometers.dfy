/** Digit sequences in a mixed radix, most significant digit first, and the odometer step
    that both quadrature iterators take. */
module Odometers {

  /** The number of digit sequences below the radices. */
  function Size(r: seq<nat>): nat {
    if |r| == 0 then 1 else r[0] * Size(r[1..])
  }

  ghost predicate Digits(j: seq<nat>, r: seq<nat>) {
    |j| == |r| && forall i :: 0 <= i < |j| ==> j[i] < r[i]
  }

  /** The position of a digit sequence. */
  function Value(j: seq<nat>, r: seq<nat>): nat
    requires |j| == |r|
  {
    if |j| == 0 then 0 else j[0] * Size(r[1..]) + Value(j[1..], r[1..])
  }

  /** The digit sequence at a position. */
  function DigitsAt(v: nat, r: seq<nat>): (j: seq<nat>)
    ensures |j| == |r|
    decreases |r|
  {
    if |r| == 0 then []
    else
      var rest := Size(r[1..]);
      if rest == 0 then seq(|r|, _ => 0) else [v / rest] + DigitsAt(v % rest, r[1..])
  }

  function Zeros(n: nat): (z: seq<nat>)
    ensures |z| == n && forall i :: 0 <= i < n ==> z[i] == 0
  {
    seq(n, _ => 0)
  }

  ghost predicate Positive(r: seq<nat>) {
    forall i :: 0 <= i < |r| ==> r[i] > 0
  }

  lemma {:induction false} SizePositive(r: seq<nat>)
    requires Positive(r)
    ensures Size(r) > 0
    decreases |r|
  {
    if |r| > 0 {
      SizePositive(r[1..]);
      assert r[0] * Size(r[1..]) > 0;
    }
  }

  lemma MulLess(a: nat, b: nat, s: nat)
    requires a < b
    ensures a * s + s <= b * s
  {
    MulAtLeast(a + 1, b, s);
    assert (a + 1) * s == a * s + s;
  }

  lemma {:induction false} ValueBound(j: seq<nat>, r: seq<nat>)
    requires Digits(j, r)
    ensures Value(j, r) < Size(r)
    decreases |j|
  {
    if |j| > 0 {
      ValueBound(j[1..], r[1..]);
      MulLess(j[0], r[0], Size(r[1..]));
    }
  }

  lemma {:induction false} ValueOfZeros(r: seq<nat>)
    ensures Value(Zeros(|r|), r) == 0
    decreases |r|
  {
    if |r| > 0 {
      assert Zeros(|r|)[1..] == Zeros(|r| - 1);
      ValueOfZeros(r[1..]);
    }
  }

  /** The value of a sequence that starts with a digit and goes on with zeros. */
  lemma ValueOfFirst(j0: nat, r: seq<nat>)
    requires |r| > 0
    ensures Value([j0] + Zeros(|r| - 1), r) == j0 * Size(r[1..])
  {
    var j := [j0] + Zeros(|r| - 1);
    assert j[1..] == Zeros(|r| - 1);
    ValueOfZeros(r[1..]);
  }

  lemma DivMod(a: nat, s: nat, v: nat)
    requires v < s
    ensures (a * s + v) / s == a && (a * s + v) % s == v
  {
    var q, m := (a * s + v) / s, (a * s + v) % s;
    assert q * s + m == a * s + v && 0 <= m < s;
    if q < a { MulLess(q, a, s); }
    if a < q { MulLess(a, q, s); }
  }

  lemma DivMonotone(a: nat, b: nat, d: nat)
    requires a <= b && d > 0
    ensures a / d <= b / d
  {
    var x, y := a / d, b / d;
    assert a == x * d + a % d && b == y * d + b % d;
    if x > y { MulLess(y, x, d); }
  }

  /** The first of n items in portion ti of tn. */
  function Share(ti: nat, n: nat, tn: nat): nat
    requires tn > 0
  {
    ti * n / tn
  }

  lemma ShareEnds(n: nat, tn: nat)
    requires tn > 0
    ensures Share(0, n, tn) == 0 && Share(tn, n, tn) == n
  {
    DivExact(tn * n, n, tn);
    DivExact(0 * n, 0, tn);
  }

  lemma DivExact(a: nat, b: nat, d: nat)
    requires d > 0 && a == b * d
    ensures a / d == b
  {
    DivMod(b, d, 0);
  }

  /** All shares have the same length up to one. */
  lemma ShareBalanced(ti: nat, n: nat, tn: nat)
    requires tn > 0
    ensures n / tn <= Share(ti + 1, n, tn) - Share(ti, n, tn) <= n / tn + 1
  {
    assert (ti + 1) * n == ti * n + n;
    SumQuotients(ti * n, n, tn);
  }

  lemma SumQuotients(a: nat, n: nat, d: nat)
    requires d > 0
    ensures a / d + n / d <= (a + n) / d <= a / d + n / d + 1
  {
    SumParts(a / d, a % d, n / d, n % d, d);
    assert a == (a / d) * d + a % d && n == (n / d) * d + n % d;
  }

  lemma SumParts(q: nat, r: nat, p: nat, s: nat, d: nat)
    requires r < d && s < d
    ensures (q * d + r + (p * d + s)) / d == q + p + if r + s < d then 0 else 1
  {
    Together(q, p, d);
    if r + s < d {
      DivMod(q + p, d, r + s);
    } else {
      Together(q + p, 1, d);
      DivMod(q + p + 1, d, r + s - d);
    }
  }

  lemma Together(x: nat, y: nat, d: nat)
    ensures (x + y) * d == x * d + y * d
  {
  }

  lemma ShareMonotone(ti: nat, tj: nat, n: nat, tn: nat)
    requires tn > 0 && ti <= tj
    ensures Share(ti, n, tn) <= Share(tj, n, tn)
  {
    MulAtLeast(ti, tj, n);
    DivMonotone(ti * n, tj * n, tn);
  }

  /** Positions and digit sequences determine each other. */
  lemma {:induction false} DigitsAtValue(j: seq<nat>, r: seq<nat>)
    requires Digits(j, r) && Positive(r)
    ensures DigitsAt(Value(j, r), r) == j
    decreases |j|
  {
    if |j| > 0 {
      SizePositive(r[1..]);
      ValueBound(j[1..], r[1..]);
      DivMod(j[0], Size(r[1..]), Value(j[1..], r[1..]));
      DigitsAtValue(j[1..], r[1..]);
      assert j == [j[0]] + j[1..];
    }
  }

  lemma MulAtLeast(a: nat, b: nat, s: nat)
    requires a <= b
    ensures a * s <= b * s
  {
    assert b * s == a * s + (b - a) * s;
  }

  lemma MulNext(a: nat, b: nat, s: nat)
    requires b == a + 1
    ensures b * s == a * s + s
  {
  }

  /** j' comes from j by raising the digit at i and resetting the digits after it, which were full. */
  ghost predicate Steps(j: seq<nat>, j': seq<nat>, r: seq<nat>, i: nat) {
    && |j| == |j'| == |r| && i < |j|
    && j'[..i] == j[..i] && j'[i] == j[i] + 1 < r[i]
    && forall k :: i < k < |j| ==> j[k] + 1 == r[k] && j'[k] == 0
  }

  /** All digits are full. */
  ghost predicate Full(j: seq<nat>, r: seq<nat>) {
    |j| == |r| && forall k :: 0 <= k < |j| ==> j[k] + 1 == r[k]
  }

  lemma {:induction false} ValueOfFull(j: seq<nat>, r: seq<nat>)
    requires Full(j, r)
    ensures Value(j, r) + 1 == Size(r)
    decreases |j|
  {
    if |j| > 0 {
      ValueOfFull(j[1..], r[1..]);
      MulNext(j[0], r[0], Size(r[1..]));
    }
  }

  /** An odometer step goes to the next position. */
  lemma {:induction false} StepsIsNext(j: seq<nat>, j': seq<nat>, r: seq<nat>, i: nat)
    requires Steps(j, j', r, i)
    ensures Value(j', r) == Value(j, r) + 1
    decreases |j|
  {
    var s := Size(r[1..]);
    if i == 0 {
      ValueOfFull(j[1..], r[1..]);
      assert j'[1..] == Zeros(|j| - 1);
      ValueOfZeros(r[1..]);
      assert (j[0] + 1) * s == j[0] * s + s;
    } else {
      assert j'[0] == j'[..i][0] == j[..i][0] == j[0];
      assert j'[1..][..i - 1] == j'[..i][1..] && j[1..][..i - 1] == j[..i][1..];
      StepsIsNext(j[1..], j'[1..], r[1..], i - 1);
    }
  }

  /** Raises the last digit and carries; the result is the place the carry stopped at, -1 when
      it ran out at the front, and then all digits are zero again. */
  method Advance(jseq: array<nat>, r: seq<nat>) returns (i: int)
    requires jseq.Length == |r| > 0 && Digits(jseq[..], r)
    modifies jseq
    ensures -1 <= i < jseq.Length
    ensures i >= 0 ==> Digits(jseq[..], r) && Steps(old(jseq[..]), jseq[..], r, i) && Value(jseq[..], r) == Value(old(jseq[..]), r) + 1
    ensures i < 0 ==> Full(old(jseq[..]), r) && jseq[..] == Zeros(jseq.Length) && Value(old(jseq[..]), r) + 1 == Size(r)
  {
    ghost var was := jseq[..];
    i := jseq.Length - 1;
    jseq[i] := jseq[i] + 1;
    while i >= 0 && jseq[i] == r[i]
      invariant -1 <= i < jseq.Length
      invariant i >= 0 ==> jseq[..i] == was[..i] && jseq[i] == was[i] + 1
      invariant forall k :: i < k < jseq.Length ==> jseq[k] == 0 && was[k] + 1 == r[k]
      decreases i
    {
      jseq[i] := 0;
      i := i - 1;
      if i >= 0 {
        jseq[i] := jseq[i] + 1;
      }
    }
    if i >= 0 {
      StepsIsNext(was, jseq[..], r, i);
    } else {
      assert jseq[..] == Zeros(jseq.Length);
      ValueOfFull(was, r);
    }
  }
}
