/** The signed combination weights of the Smolyak formula, summed over all level sequences. */
module Combination {
  import opened Reals
  import opened RealSums
  import opened SymmetrySets
  import opened MultiIndices

  function Sign(n: nat): real {
    if n == 0 then 1.0 else -Sign(n - 1)
  }

  lemma {:induction false} SignIsParity(n: nat)
    ensures Sign(n) == if 2 * (n / 2) == n then 1.0 else -1.0
  {
    if n > 0 { SignIsParity(n - 1); }
  }

  /** The n-th coefficient of (1-x)^p. */
  function Signed(p: nat, n: nat): real {
    Mul(Sign(n), Choose(p, n) as real)
  }

  lemma SignedPascal(p: nat, n: nat)
    ensures Signed(p, 0) == 1.0
    ensures Signed(p + 1, n + 1) == Signed(p, n + 1) - Signed(p, n)
  {
    MulDistributes(Sign(n + 1), Choose(p, n) as real, Choose(p, n + 1) as real);
    assert Mul(Sign(n + 1), Choose(p, n) as real) == -Mul(Sign(n), Choose(p, n) as real);
  }

  function SignedTerms(p: nat): nat -> real {
    (m: nat) => Signed(p, m)
  }

  /** Partial sums lower the power. */
  lemma {:induction false} SignedPrefix(p: nat, n: nat)
    ensures Sum(SignedTerms(p + 1), 0, n + 1) == Signed(p, n)
    decreases n
  {
    hide Signed;
    if n == 0 {
      SignedPascal(p, 0);
      SignedPascal(p + 1, 0);
      assert Sum(SignedTerms(p + 1), 0, 0) == 0.0;
    } else {
      SignedPrefix(p, n - 1);
      SignedPascal(p, n - 1);
    }
  }

  /** The n-th coefficient of q times (1-x)^p. */
  function Convolved(q: nat -> real, p: nat, n: nat): real {
    Sum(Pairs(q, p, n), 0, n + 1)
  }

  function Pairs(q: nat -> real, p: nat, n: nat): nat -> real {
    (i: nat) => if i <= n then Mul(q(i), Signed(p, n - i)) else 0.0
  }

  lemma ConvolvedZero(q: nat -> real, n: nat)
    ensures Convolved(q, 0, n) == q(n)
  {
    forall i: nat | i < n
      ensures Pairs(q, 0, n)(i) == 0.0
    {
      assert Signed(0, n - i) == 0.0;
      MulUnits(q(i));
    }
    SumZero(Pairs(q, 0, n), 0, n);
    SignedPascal(0, 0);
    MulUnits(q(n));
  }

  lemma ConvolvedStep(q: nat -> real, p: nat, n: nat)
    ensures Convolved(q, p, n + 1) == Convolved(q, p, n) + Convolved(q, p + 1, n + 1)
  {
    hide Signed, Mul;
    var a, b, c := Pairs(q, p, n), Pairs(q, p + 1, n + 1), Pairs(q, p, n + 1);
    forall i: nat | i < n + 1
      ensures c(i) == a(i) + b(i)
    {
      SignedPascal(p, n - i);
      MulDistributes(q(i), Signed(p, n - i), Signed(p + 1, n + 1 - i));
    }
    SumPlus(a, b, c, 0, n + 1);
    SignedPascal(p, 0);
    SignedPascal(p + 1, 0);
  }

  function ConvolvedTerms(q: nat -> real, p: nat): nat -> real {
    (m: nat) => Convolved(q, p, m)
  }

  lemma {:induction false} ConvolvedPrefix(q: nat -> real, p: nat, n: nat)
    ensures Sum(ConvolvedTerms(q, p + 1), 0, n + 1) == Convolved(q, p, n)
    decreases n
  {
    hide Convolved;
    if n == 0 {
      ConvolvedStart(q, p);
      ConvolvedStart(q, p + 1);
      assert Sum(ConvolvedTerms(q, p + 1), 0, 0) == 0.0;
    } else {
      ConvolvedPrefix(q, p, n - 1);
      ConvolvedStep(q, p, n - 1);
    }
  }

  lemma ConvolvedStart(q: nat -> real, p: nat)
    ensures Convolved(q, p, 0) == q(0)
  {
    assert Sum(Pairs(q, p, 0), 0, 1) == Sum(Pairs(q, p, 0), 0, 0) + Pairs(q, p, 0)(0);
    SignedPascal(p, 0);
    MulUnits(q(0));
  }

  function ListSum(g: seq<nat> -> real, ss: seq<seq<nat>>): real {
    if |ss| == 0 then 0.0 else g(ss[0]) + ListSum(g, ss[1..])
  }

  lemma {:induction false} ListSumConcat(g: seq<nat> -> real, a: seq<seq<nat>>, b: seq<seq<nat>>)
    ensures ListSum(g, a + b) == ListSum(g, a) + ListSum(g, b)
    decreases |a|
  {
    if |a| == 0 {
      assert a + b == b;
    } else {
      assert (a + b)[1..] == a[1..] + b;
      ListSumConcat(g, a[1..], b);
    }
  }

  function Listed(g: seq<nat> -> real, ss: seq<seq<nat>>): nat -> real {
    (i: nat) => if i < |ss| then g(ss[i]) else 0.0
  }

  lemma {:induction false} ListSumIsSum(g: seq<nat> -> real, ss: seq<seq<nat>>, k: nat)
    requires k <= |ss|
    ensures ListSum(g, ss[..k]) == Sum(Listed(g, ss), 0, k)
    decreases k
  {
    if k > 0 {
      ListSumIsSum(g, ss, k - 1);
      ListSumLast(g, ss[..k - 1], ss[k - 1]);
      assert ss[..k - 1] + [ss[k - 1]] == ss[..k];
    }
  }

  lemma ListSumLast(g: seq<nat> -> real, ss: seq<seq<nat>>, s: seq<nat>)
    ensures ListSum(g, ss + [s]) == ListSum(g, ss) + g(s)
  {
    ListSumConcat(g, ss, [s]);
    assert ListSum(g, [s]) == g(s) + ListSum(g, []);
  }

  /** g on sequences that start with i. */
  function After(g: seq<nat> -> real, i: nat): seq<nat> -> real {
    s => g([i] + s)
  }

  lemma {:induction false} ListSumPrefixed(g: seq<nat> -> real, i: nat, ss: seq<seq<nat>>)
    ensures ListSum(g, Prefixed(i, ss)) == ListSum(After(g, i), ss)
    decreases |ss|
  {
    if |ss| > 0 {
      assert Prefixed(i, ss)[1..] == Prefixed(i, ss[1..]);
      ListSumPrefixed(g, i, ss[1..]);
    }
  }

  lemma {:induction false} ListSumScale(k: real, f: seq<nat> -> real, g: seq<nat> -> real, ss: seq<seq<nat>>)
    requires forall i :: 0 <= i < |ss| ==> g(ss[i]) == Mul(k, f(ss[i]))
    ensures ListSum(g, ss) == Mul(k, ListSum(f, ss))
    decreases |ss|
  {
    hide Mul;
    if |ss| == 0 {
      MulUnits(k);
    } else {
      ListSumScale(k, f, g, ss[1..]);
      MulDistributes(k, f(ss[0]), ListSum(f, ss[1..]));
    }
  }

  function Branches(g: seq<nat> -> real, dim: nat, len: nat): nat -> real
    requires len > 1
  {
    (i: nat) => if i <= dim then ListSum(After(g, i), All(dim - i, len - 1)) else 0.0
  }

  /** A sum over all sequences, first item first. */
  lemma SumBranches(g: seq<nat> -> real, dim: nat, len: nat)
    requires len > 1
    ensures ListSum(g, All(dim, len)) == Sum(Branches(g, dim, len), 0, dim + 1)
  {
    SumBranchesFrom(g, dim, len, 0);
  }

  lemma {:induction false} SumBranchesFrom(g: seq<nat> -> real, dim: nat, len: nat, i: nat)
    requires len > 1 && i <= dim + 1
    ensures ListSum(g, From(dim, len, i)) == Sum(Branches(g, dim, len), i, dim + 1)
    decreases dim + 1 - i
  {
    if i <= dim {
      SumBranchesFrom(g, dim, len, i + 1);
      SumFirst(Branches(g, dim, len), i, dim + 1);
      ListSumPrefixed(g, i, All(dim - i, len - 1));
      ListSumConcat(g, Prefixed(i, All(dim - i, len - 1)), From(dim, len, i + 1));
    }
  }

  /** g is the signed binomial of the last item. */
  ghost predicate OfLast(g: seq<nat> -> real, p: nat, len: nat) {
    len > 0 && forall s: seq<nat> :: |s| == len ==> g(s) == Signed(p, s[len - 1])
  }

  /** Summing over the free items lowers the power once for each. */
  lemma {:induction false} FreeSum(g: seq<nat> -> real, p: nat, n: nat, len: nat)
    requires OfLast(g, p, len) && p + 1 >= len
    ensures ListSum(g, All(n, len)) == Signed(p + 1 - len, n)
    decreases len
  {
    hide Signed;
    if len == 1 {
      assert All(n, 1)[0] == [n];
      assert ListSum(g, All(n, 1)[1..]) == 0.0;
    } else {
      SumBranches(g, n, len);
      forall i: nat | i <= n
        ensures Branches(g, n, len)(i) == SignedTerms(p + 2 - len)(n - i)
      {
        assert OfLast(After(g, i), p, len - 1);
        FreeSum(After(g, i), p, n - i, len - 1);
      }
      SumReverse(SignedTerms(p + 2 - len), Branches(g, n, len), n);
      SignedPrefix(p + 1 - len, n);
    }
  }

  /** g is a function of one item times the signed binomial of the last. */
  ghost predicate OfItem(g: seq<nat> -> real, q: nat -> real, c: nat, p: nat, len: nat) {
    c + 1 < len && forall s: seq<nat> :: |s| == len ==> g(s) == Mul(q(s[c]), Signed(p, s[len - 1]))
  }

  lemma {:induction false} ItemSum(g: seq<nat> -> real, q: nat -> real, c: nat, p: nat, n: nat, len: nat)
    requires OfItem(g, q, c, p, len) && p + 2 >= len
    ensures ListSum(g, All(n, len)) == Convolved(q, p + 2 - len, n)
    decreases len
  {
    hide Signed, Mul, All, Convolved, Sum;
    SumBranches(g, n, len);
    if c == 0 {
      forall i: nat | i < n + 1
        ensures Branches(g, n, len)(i) == Pairs(q, p + 2 - len, n)(i)
      {
        FirstItemBranch(g, q, p, n, len, i);
      }
      SumSame(Branches(g, n, len), Pairs(q, p + 2 - len, n), 0, n + 1);
      ConvolvedIs(q, p + 2 - len, n);
    } else {
      forall i: nat | i <= n
        ensures Branches(g, n, len)(i) == ConvolvedTerms(q, p + 3 - len)(n - i)
      {
        assert OfItem(After(g, i), q, c - 1, p, len - 1);
        ItemSum(After(g, i), q, c - 1, p, n - i, len - 1);
      }
      SumReverse(ConvolvedTerms(q, p + 3 - len), Branches(g, n, len), n);
      ConvolvedPrefix(q, p + 2 - len, n);
    }
  }

  lemma ConvolvedIs(q: nat -> real, p: nat, n: nat)
    ensures Convolved(q, p, n) == Sum(Pairs(q, p, n), 0, n + 1)
  {
  }

  function LastSigned(p: nat): seq<nat> -> real {
    (s: seq<nat>) => if |s| > 0 then Signed(p, s[|s| - 1]) else 0.0
  }

  lemma FirstItemBranch(g: seq<nat> -> real, q: nat -> real, p: nat, n: nat, len: nat, i: nat)
    requires len > 1 && OfItem(g, q, 0, p, len) && p + 2 >= len && i <= n
    ensures Branches(g, n, len)(i) == Pairs(q, p + 2 - len, n)(i)
  {
    hide *;
    var ss := All(n - i, len - 1);
    LastSignedIsLast(p, len - 1);
    FreeSum(LastSigned(p), p, n - i, len - 1);
    AllSound(n - i, len - 1);
    SoundLengths(ss, n - i, len - 1);
    forall k | 0 <= k < |ss|
      ensures After(g, i)(ss[k]) == Mul(q(i), LastSigned(p)(ss[k]))
    {
      AfterItem(g, q, p, len, i, ss[k]);
    }
    ListSumScale(q(i), LastSigned(p), After(g, i), ss);
    BranchAndPair(g, q, p + 2 - len, n, len, i);
  }

  lemma LastSignedIsLast(p: nat, len: nat)
    requires len > 0
    ensures OfLast(LastSigned(p), p, len)
  {
  }

  lemma SoundLengths(ss: seq<seq<nat>>, dim: nat, len: nat)
    requires Sound(ss, dim, len)
    ensures forall k :: 0 <= k < |ss| ==> |ss[k]| == len
  {
  }

  lemma AfterItem(g: seq<nat> -> real, q: nat -> real, p: nat, len: nat, i: nat, s: seq<nat>)
    requires OfItem(g, q, 0, p, len) && |s| == len - 1
    ensures After(g, i)(s) == Mul(q(i), LastSigned(p)(s))
  {
    hide Mul, Signed;
    assert |[i] + s| == len;
  }

  lemma BranchAndPair(g: seq<nat> -> real, q: nat -> real, p: nat, n: nat, len: nat, i: nat)
    requires len > 1 && i <= n
    ensures Branches(g, n, len)(i) == ListSum(After(g, i), All(n - i, len - 1))
    ensures Pairs(q, p, n)(i) == Mul(q(i), Signed(p, n - i))
  {
    hide Mul, Signed, ListSum, All;
  }

  /** The combination weights reproduce any function of one level: in d dimensions, with d
      levels and one slack item that sum to n, the signed sum of q over the levels is q(n). */
  lemma CombinationReproduces(g: seq<nat> -> real, q: nat -> real, c: nat, d: nat, n: nat)
    requires d > 0 && OfItem(g, q, c, d - 1, d + 1)
    ensures ListSum(g, All(n, d + 1)) == q(n)
  {
    ItemSum(g, q, c, d - 1, n, d + 1);
    ConvolvedZero(q, n);
  }

  /** Items whose slack exceeds d-1 do not count. */
  lemma SlackBeyond(p: nat, x: nat)
    requires x > p
    ensures Signed(p, x) == 0.0
  {
    ChooseAbove(p, x);
    MulUnits(Sign(x));
  }
}
