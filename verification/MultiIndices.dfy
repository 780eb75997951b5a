/** Folded multi-indices: non-decreasing sequences below nv, their lexicographic order,
    their successor and their rank. */
module MultiIndices {
  /** Binomial coefficients. */
  function Choose(n: nat, k: nat): nat {
    if k == 0 then 1 else if n == 0 then 0 else Choose(n - 1, k - 1) + Choose(n - 1, k)
  }

  /** The number of non-decreasing sequences of length len below nv. */
  function Count(nv: nat, len: nat): nat {
    if len == 0 then 1 else Choose(nv + len - 1, len)
  }

  lemma {:induction false} ChooseAbove(n: nat, k: nat)
    requires n < k
    ensures Choose(n, k) == 0
    decreases n
  {
    if n > 0 {
      ChooseAbove(n - 1, k - 1);
      ChooseAbove(n - 1, k);
    }
  }

  lemma {:induction false} ChooseEnds(n: nat)
    ensures Choose(n, 0) == 1 && Choose(n, n) == 1
  {
    ChooseAbove(n, n + 1);
    if n > 0 { ChooseEnds(n - 1); ChooseAbove(n - 1, n); }
  }

  lemma CountLaws(nv: nat, len: nat)
    requires len > 0
    ensures Count(0, len) == 0
    ensures nv > 0 ==> Count(nv, len) == Count(nv - 1, len) + Count(nv, len - 1)
  {
    ChooseAbove(len - 1, len);
  }

  lemma {:induction false} CountMonotone(a: nat, b: nat, len: nat)
    requires a <= b
    ensures Count(a, len) <= Count(b, len)
    decreases b
  {
    if a < b && len > 0 {
      CountLaws(b, len);
      CountMonotone(a, b - 1, len);
    }
  }

  predicate Folded(s: seq<nat>, nv: nat) {
    && (forall i :: 0 <= i < |s| ==> s[i] < nv)
    && (forall i, j :: 0 <= i <= j < |s| ==> s[i] <= s[j])
  }

  function Constant(len: nat, x: nat): (s: seq<nat>)
    ensures |s| == len && forall i :: 0 <= i < len ==> s[i] == x
  {
    seq(len, _ => x)
  }

  /** All items lowered by m. */
  function Lower(s: seq<nat>, m: nat): (r: seq<nat>)
    requires forall i :: 0 <= i < |s| ==> m <= s[i]
    ensures |r| == |s| && forall i :: 0 <= i < |s| ==> r[i] == s[i] - m
  {
    seq(|s|, i requires 0 <= i < |s| => s[i] - m)
  }

  /** The lexicographic order of multi-indices of the same order. */
  predicate LexLess(s: seq<nat>, t: seq<nat>)
    requires |s| == |t|
  {
    |s| > 0 && (s[0] < t[0] || (s[0] == t[0] && LexLess(s[1..], t[1..])))
  }

  /** The position of a multi-index among the multi-indices of its order. */
  function Rank(s: seq<nat>, nv: nat): int
    requires Folded(s, nv)
    decreases |s|
  {
    if |s| == 0 then 0
    else Count(nv, |s|) - Count(nv - s[0], |s|) + Rank(Lower(s[1..], s[0]), nv - s[0])
  }

  lemma {:induction false} RankBounds(s: seq<nat>, nv: nat)
    requires Folded(s, nv)
    ensures 0 <= Rank(s, nv) < Count(nv, |s|)
    decreases |s|
  {
    if |s| > 0 {
      RankBounds(Lower(s[1..], s[0]), nv - s[0]);
      CountLaws(nv - s[0], |s|);
      CountMonotone(nv - s[0], nv, |s|);
    }
  }

  /** The rank respects the lexicographic order. */
  lemma {:induction false} RankMonotone(s: seq<nat>, t: seq<nat>, nv: nat)
    requires Folded(s, nv) && Folded(t, nv) && |s| == |t| && LexLess(s, t)
    ensures Rank(s, nv) < Rank(t, nv)
    decreases |s|
  {
    var m := s[0];
    if m < t[0] {
      RankBounds(Lower(s[1..], m), nv - m);
      CountLaws(nv - m, |s|);
      CountMonotone(nv - t[0], nv - m - 1, |s|);
      RankBounds(Lower(t[1..], t[0]), nv - t[0]);
    } else {
      LexLessLower(s[1..], t[1..], m);
      RankMonotone(Lower(s[1..], m), Lower(t[1..], m), nv - m);
    }
  }

  lemma {:induction false} LexLessLower(s: seq<nat>, t: seq<nat>, m: nat)
    requires |s| == |t| && LexLess(s, t)
    requires forall i :: 0 <= i < |s| ==> m <= s[i] && m <= t[i]
    ensures LexLess(Lower(s, m), Lower(t, m))
    decreases |s|
  {
    if s[0] == t[0] {
      LexLessLower(s[1..], t[1..], m);
      assert Lower(s, m)[1..] == Lower(s[1..], m) && Lower(t, m)[1..] == Lower(t[1..], m);
    }
  }

  lemma {:induction false} LexTotal(s: seq<nat>, t: seq<nat>)
    requires |s| == |t|
    ensures s == t || LexLess(s, t) || LexLess(t, s)
    decreases |s|
  {
    if |s| > 0 && s[0] == t[0] {
      LexTotal(s[1..], t[1..]);
      assert s[1..] == t[1..] ==> s == [s[0]] + s[1..] == t;
    }
  }

  lemma {:induction false} LexAsymmetric(s: seq<nat>, t: seq<nat>)
    requires |s| == |t| && LexLess(s, t)
    ensures !LexLess(t, s)
    decreases |s|
  {
    if s[0] == t[0] { LexAsymmetric(s[1..], t[1..]); }
  }

  lemma {:induction false} LexTransitive(s: seq<nat>, t: seq<nat>, u: seq<nat>)
    requires |s| == |t| == |u| && LexLess(s, t) && LexLess(t, u)
    ensures LexLess(s, u)
    decreases |s|
  {
    if s[0] == t[0] == u[0] { LexTransitive(s[1..], t[1..], u[1..]); }
  }

  /** Where two sequences first differ decides. */
  lemma {:induction false} LexByFirst(s: seq<nat>, t: seq<nat>, i: nat)
    requires |s| == |t| && i <= |s| && s[..i] == t[..i]
    requires i < |s| ==> s[i] != t[i]
    ensures LexLess(s, t) <==> i < |s| && s[i] < t[i]
    decreases i
  {
    if i > 0 {
      assert s[0] == s[..i][0] == t[..i][0] == t[0];
      assert s[1..][..i - 1] == s[..i][1..] && t[1..][..i - 1] == t[..i][1..];
      LexByFirst(s[1..], t[1..], i - 1);
    }
  }

  /** Multi-indices by order, and those of the same order lexicographically. */
  predicate Less(s: seq<nat>, t: seq<nat>) {
    |s| < |t| || (|s| == |t| && LexLess(s, t))
  }

  /** The comparison is a strict total order. */
  lemma StrictTotalOrder(s: seq<nat>, t: seq<nat>, u: seq<nat>)
    ensures !Less(s, s)
    ensures s == t || Less(s, t) || Less(t, s)
    ensures Less(s, t) ==> !Less(t, s)
    ensures Less(s, t) && Less(t, u) ==> Less(s, u)
  {
    if LexLess(s, s) { LexAsymmetric(s, s); }
    if |s| == |t| {
      LexTotal(s, t);
      if LexLess(s, t) { LexAsymmetric(s, t); }
      if |t| == |u| && LexLess(s, t) && LexLess(t, u) { LexTransitive(s, t, u); }
    }
  }

  /** The place where the successor differs: the last item that can still grow. */
  ghost predicate Turns(s: seq<nat>, nv: nat, k: nat) {
    k < |s| && s[k] + 1 < nv && forall i :: k < i < |s| ==> s[i] + 1 == nv
  }

  /** The successor: the item at k grows and everything after it is reset to it. */
  function Bumped(s: seq<nat>, k: nat): seq<nat>
    requires k < |s|
  {
    s[..k] + Constant(|s| - k, s[k] + 1)
  }

  lemma {:induction false} RankOfConstant(len: nat, x: nat, nv: nat)
    requires x < nv
    ensures Folded(Constant(len, x), nv)
    ensures Rank(Constant(len, x), nv) == Count(nv, len) - Count(nv - x, len)
    decreases len
  {
    if len > 0 {
      var rest := Lower(Constant(len, x)[1..], x);
      assert rest == Constant(len - 1, 0);
      RankOfConstant(len - 1, 0, nv - x);
    }
  }

  lemma RankStep(s: seq<nat>, nv: nat)
    requires Folded(s, nv) && |s| > 0
    ensures Rank(s, nv) == Count(nv, |s|) - Count(nv - s[0], |s|) + Rank(Lower(s[1..], s[0]), nv - s[0])
  {}

  /** The successor comes right after: its rank is one more. */
  lemma {:induction false} RankOfBumped(s: seq<nat>, nv: nat, k: nat)
    requires Folded(s, nv) && Turns(s, nv, k)
    ensures Folded(Bumped(s, k), nv)
    ensures Rank(Bumped(s, k), nv) == Rank(s, nv) + 1
    decreases |s|
  {
    hide Choose, Count, Rank;
    var b := Bumped(s, k);
    assert Folded(b, nv) by {
      forall i, j | 0 <= i <= j < |s| ensures b[i] <= b[j] {
        if i < k <= j { assert s[i] <= s[k]; }
      }
    }
    RankStep(s, nv);
    RankStep(b, nv);
    var m := s[0];
    if k == 0 {
      var rest := Lower(s[1..], m);
      assert rest == Constant(|s| - 1, nv - 1 - m);
      RankOfConstant(|s| - 1, nv - 1 - m, nv - m);
      assert b == Constant(|s|, m + 1);
      assert Bumped(s, 0) == Constant(|s|, m + 1);
      RankOfConstant(|s|, m + 1, nv);
      CountLaws(nv - m, |s|);
      CountOne(|s| - 1);
    } else {
      var rest := Lower(s[1..], m);
      RankOfBumped(rest, nv - m, k - 1);
      assert b[0] == m;
      LowerBumped(s, m, k);
    }
  }

  lemma BumpedLast(s: seq<nat>, nv: nat)
    requires |s| > 0 && nv > 0 && forall i :: 0 <= i < |s| ==> s[i] == nv - 1
    ensures s == Constant(|s|, nv - 1) && Bumped(s, 0) == Constant(|s|, nv)
  {
  }

  lemma LowerBumped(s: seq<nat>, m: nat, k: nat)
    requires 0 < k < |s| && forall i :: 0 <= i < |s| ==> m <= s[i]
    ensures |Lower(s[1..], m)| == |s| - 1 && Lower(Bumped(s, k)[1..], m) == Bumped(Lower(s[1..], m), k - 1)
  {
    var l, r := Lower(Bumped(s, k)[1..], m), Bumped(Lower(s[1..], m), k - 1);
    assert |l| == |r|;
    forall i | 0 <= i < |l|
      ensures l[i] == r[i]
    {
      assert l[i] == Bumped(s, k)[i + 1] - m;
    }
  }

  lemma {:induction false} CountOne(len: nat)
    ensures Count(1, len) == 1
    decreases len
  {
    if len > 0 {
      CountLaws(1, len);
      CountOne(len - 1);
    }
  }

  /** There is nothing between a multi-index and its successor. */
  lemma SuccessorIsNext(s: seq<nat>, nv: nat, k: nat, t: seq<nat>)
    requires Folded(s, nv) && Turns(s, nv, k) && Folded(t, nv) && |t| == |s|
    ensures Folded(Bumped(s, k), nv) && LexLess(s, Bumped(s, k))
    ensures !(LexLess(s, t) && LexLess(t, Bumped(s, k)))
  {
    RankOfBumped(s, nv, k);
    LexTotal(s, Bumped(s, k));
    if LexLess(Bumped(s, k), s) { RankMonotone(Bumped(s, k), s, nv); }
    if LexLess(s, t) && LexLess(t, Bumped(s, k)) {
      RankMonotone(s, t, nv);
      RankMonotone(t, Bumped(s, k), nv);
    }
  }

  /** Distinct multi-indices have distinct ranks. */
  lemma RankInjective(s: seq<nat>, t: seq<nat>, nv: nat)
    requires Folded(s, nv) && Folded(t, nv) && |s| == |t| && Rank(s, nv) == Rank(t, nv)
    ensures s == t
  {
    LexTotal(s, t);
    if LexLess(s, t) { RankMonotone(s, t, nv); }
    if LexLess(t, s) { RankMonotone(t, s, nv); }
  }

  /** A multi-index that cannot be increased is the last one. */
  lemma LastOrTurns(s: seq<nat>, nv: nat) returns (k: nat)
    requires Folded(s, nv)
    ensures Turns(s, nv, k) || (s == Constant(|s|, nv - 1 as int) && Rank(s, nv) == Count(nv, |s|) - 1)
    requires nv > 0
  {
    k := |s|;
    while k > 0 && s[k - 1] + 1 == nv
      invariant k <= |s|
      invariant forall i :: k <= i < |s| ==> s[i] + 1 == nv
    {
      k := k - 1;
    }
    if k > 0 {
      k := k - 1;
    } else {
      assert s == Constant(|s|, nv - 1);
      RankOfConstant(|s|, nv - 1, nv);
      CountOne(|s|);
    }
  }

  /** Every number below the count is the rank of a multi-index. */
  lemma {:induction false} RankSurjective(r: nat, nv: nat, len: nat) returns (s: seq<nat>)
    requires nv > 0 && r < Count(nv, len)
    ensures |s| == len && Folded(s, nv) && Rank(s, nv) == r
    decreases r
  {
    if r == 0 {
      s := Constant(len, 0);
      RankOfConstant(len, 0, nv);
    } else {
      var prev := RankSurjective(r - 1, nv, len);
      var k := LastOrTurns(prev, nv);
      RankOfBumped(prev, nv, k);
      s := Bumped(prev, k);
    }
  }

  class FoldMultiIndex {
    const nvar: nat
    const ord: nat
    const data: array<nat>

    ghost predicate Valid()
      reads this, data
    {
      data.Length == ord && Folded(data[..], nvar)
    }

    /** Items are all i. */
    constructor (nv: nat, order: nat, i: nat)
      ensures nvar == nv && ord == order && data[..] == Constant(order, i) && fresh(data)
    {
      nvar, ord := nv, order;
      data := new nat[order](_ => i);
    }

    /** The multi-index of another one with new orders appended, repeating its last item. */
    constructor Shifted(nv: nat, mi: seq<nat>, newOrders: nat)
      ensures nvar == nv && ord == |mi| + newOrders && fresh(data)
      ensures data[..] == mi + Constant(newOrders, if |mi| > 0 then mi[|mi| - 1] else 0)
    {
      nvar, ord := nv, |mi| + newOrders;
      var item := if |mi| > 0 then mi[|mi| - 1] else 0;
      data := new nat[|mi| + newOrders](i => if 0 <= i < |mi| then mi[i] else item);
    }

    /** Compares the orders first, and then the first items that differ; the numbers of variables play no part. */
    method LessThan(fmi: FoldMultiIndex) returns (less: bool)
      requires Valid() && fmi.Valid()
      ensures less <==> Less(data[..], fmi.data[..])
    {
      if ord < fmi.ord {
        return true;
      }
      if ord > fmi.ord {
        return false;
      }
      var i := 0;
      while i < ord && data[i] == fmi.data[i]
        invariant 0 <= i <= ord && data[..i] == fmi.data[..i]
      {
        i := i + 1;
      }
      LexByFirst(data[..], fmi.data[..], i);
      return i < ord && data[i] < fmi.data[i];
    }

    /** Steps to the lexicographic successor, or past the end from the last multi-index. */
    method Increment() returns (ghost k: nat)
      requires Valid()
      modifies data
      ensures ord == 0 ==> data[..] == old(data[..])
      ensures ord > 0 ==> k < ord && data[..] == Bumped(old(data[..]), k)
      ensures ord > 0 ==> if PastTheEnd() then old(data[..]) == Constant(ord, nvar - 1) && data[..] == Constant(ord, nvar)
                          else Valid() && Turns(old(data[..]), nvar, k)
    {
      k := 0;
      if ord == 0 {
        return;
      }
      ghost var was := data[..];
      var kk := ord - 1;
      data[kk] := data[kk] + 1;
      while kk > 0 && data[kk] == nvar
        invariant 0 <= kk < ord
        invariant data[..kk] == was[..kk] && data[kk] == was[kk] + 1
        invariant forall j :: kk < j < ord ==> data[j] == 0 && was[j] + 1 == nvar
      {
        data[kk] := 0;
        kk := kk - 1;
        data[kk] := data[kk] + 1;
      }
      k := kk;
      var c := 1;
      while c < ord
        invariant 1 <= c <= ord
        invariant forall j :: 0 <= j < ord ==> data[j] == if j < k then was[j] else if j == k then was[k] + 1 else if j < c then was[k] + 1 else 0
      {
        if data[c - 1] > data[c] {
          data[c] := data[c - 1];
        }
        c := c + 1;
      }
      assert data[..] == Bumped(was, k);
      if was[k] + 1 < nvar {
        RankOfBumped(was, nvar, k);
      } else {
        assert k == 0 && was[0] == nvar - 1;
        BumpedLast(was, nvar);
      }
    }

    predicate PastTheEnd()
      reads this, data
      requires data.Length == ord
    {
      ord == 0 || data[0] == nvar
    }

    /** The position of the multi-index in the folded tensor. */
    method Offset() returns (res: int)
      requires Valid()
      ensures res == Rank(data[..], nvar)
    {
      var tmp := new nat[ord](i requires 0 <= i < ord reads this, data requires data.Length == ord => data[i]);
      assert tmp[..] == data[..];
      res := OffsetRecurse(tmp, 0, nvar);
    }

    static method OffsetRecurse(a: array<nat>, start: nat, nv: nat) returns (res: int)
      requires start <= a.Length && Folded(a[start..], nv)
      modifies a
      ensures res == Rank(old(a[start..]), nv)
      decreases a.Length - start
    {
      hide Choose, Folded;
      ghost var was := a[start..];
      var len := a.Length - start;
      if len == 0 {
        return 0;
      }
      hide Rank;
      FoldedParts(was, nv);
      var prefix := 1;
      while prefix < len && a[start] == a[start + prefix]
        invariant 1 <= prefix <= len
        invariant forall i :: 0 <= i < prefix ==> was[i] == was[0]
      {
        prefix := prefix + 1;
      }
      var m := a[start];
      var s1 := Choose(nv + len - 1, len) - Choose(nv - m + len - 1, len);
      assert a[start + prefix..] == was[prefix..];
      Cancel(a, start + prefix, m);
      var s2 := OffsetRecurse(a, start + prefix, nv - m);
      RankSkipsPrefix(was, nv, prefix);
      return s1 + s2;
    }

    /** Lowers the items from start on by m. */
    static method Cancel(a: array<nat>, start: nat, m: nat)
      requires start <= a.Length && forall i :: start <= i < a.Length ==> m <= a[i]
      modifies a
      ensures old(a[start..]) == old(a[..])[start..] && a[start..] == Lower(old(a[start..]), m)
    {
      var i := start;
      while i < a.Length
        invariant start <= i <= a.Length
        invariant forall j :: start <= j < a.Length ==> a[j] == if j < i then old(a[j]) - m else old(a[j])
      {
        a[i] := a[i] - m;
        i := i + 1;
      }
    }
  }

  lemma FoldedParts(s: seq<nat>, nv: nat)
    requires Folded(s, nv) && |s| > 0
    ensures forall i :: 0 <= i < |s| ==> s[0] <= s[i] < nv
    ensures forall k {:trigger s[k..]} :: 0 <= k <= |s| ==> Folded(Lower(s[k..], s[0]), nv - s[0])
  {
  }

  /** Items equal to the first one add nothing to the rank. */
  lemma {:induction false} RankSkipsPrefix(s: seq<nat>, nv: nat, prefix: nat)
    requires Folded(s, nv) && 0 < prefix <= |s| && forall i :: 0 <= i < prefix ==> s[i] == s[0]
    ensures Rank(s, nv) == Count(nv, |s|) - Count(nv - s[0], |s|) + Rank(Lower(s[prefix..], s[0]), nv - s[0])
    decreases |s|
  {
    hide Choose, Count, Rank;
    RankStep(s, nv);
    if prefix > 1 {
      var rest := Lower(s[1..], s[0]);
      RankSkipsPrefix(rest, nv - s[0], prefix - 1);
      assert Lower(rest[prefix - 1..], 0) == Lower(s[prefix..], s[0]);
    }
  }
}
