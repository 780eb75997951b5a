/** All sequences of naturals of a given length and sum, in the order the symmetry iterator visits them. */
module SymmetrySets {
  import Odometers

  function Total(s: seq<nat>): nat {
    if |s| == 0 then 0 else s[0] + Total(s[1..])
  }

  function Prefixed(i: nat, ss: seq<seq<nat>>): (r: seq<seq<nat>>)
    ensures |r| == |ss| && forall k :: 0 <= k < |ss| ==> r[k] == [i] + ss[k]
  {
    seq(|ss|, k requires 0 <= k < |ss| => [i] + ss[k])
  }

  /** The sequences of length len and sum dim, lexicographically. */
  function All(dim: nat, len: nat): seq<seq<nat>>
    requires len > 0
    decreases len, 0
  {
    if len == 1 then [[dim]] else From(dim, len, 0)
  }

  /** Those that start with i or more. */
  function From(dim: nat, len: nat, i: nat): seq<seq<nat>>
    requires len > 1 && i <= dim + 1
    decreases len - 1, 1 + dim + 1 - i
  {
    if i > dim then [] else Prefixed(i, All(dim - i, len - 1)) + From(dim, len, i + 1)
  }

  ghost predicate Sound(ss: seq<seq<nat>>, dim: nat, len: nat) {
    forall k :: 0 <= k < |ss| ==> |ss[k]| == len && Total(ss[k]) == dim
  }

  ghost predicate Distinct(ss: seq<seq<nat>>) {
    forall j, k :: 0 <= j < k < |ss| ==> ss[j] != ss[k]
  }

  lemma {:induction false} AllSound(dim: nat, len: nat)
    requires len > 0
    ensures Sound(All(dim, len), dim, len) && Distinct(All(dim, len)) && |All(dim, len)| > 0
    decreases len, 0
  {
    if len > 1 { FromSound(dim, len, 0); }
  }

  lemma {:induction false} FromSound(dim: nat, len: nat, i: nat)
    requires len > 1 && i <= dim + 1
    ensures Sound(From(dim, len, i), dim, len) && Distinct(From(dim, len, i))
    ensures forall k :: 0 <= k < |From(dim, len, i)| ==> |From(dim, len, i)[k]| == len && From(dim, len, i)[k][0] >= i
    ensures i <= dim ==> |From(dim, len, i)| > 0
    decreases len - 1, 1 + dim + 1 - i
  {
    if i <= dim {
      AllSound(dim - i, len - 1);
      FromSound(dim, len, i + 1);
      var sub, rest := All(dim - i, len - 1), From(dim, len, i + 1);
      var all := From(dim, len, i);
      forall k | 0 <= k < |sub|
        ensures all[k] == [i] + sub[k] && all[k][1..] == sub[k]
      {
      }
      forall j, k | 0 <= j < k < |all|
        ensures all[j] != all[k]
      {
        if k < |sub| {
          assert all[j][1..] != all[k][1..];
        } else if j < |sub| {
          assert all[j][0] == i && all[k][0] > i;
        }
      }
    }
  }

  /** Lexicographic order. */
  ghost predicate Before(s: seq<nat>, t: seq<nat>) {
    |s| == |t| > 0 && (s[0] < t[0] || (s[0] == t[0] && Before(s[1..], t[1..])))
  }

  ghost predicate Sorted(ss: seq<seq<nat>>) {
    forall j, k :: 0 <= j < k < |ss| ==> Before(ss[j], ss[k])
  }

  /** The list is in lexicographic order. */
  lemma {:induction false} AllSorted(dim: nat, len: nat)
    requires len > 0
    ensures Sorted(All(dim, len))
    decreases len, 0
  {
    if len > 1 { FromSorted(dim, len, 0); }
  }

  lemma {:induction false} FromSorted(dim: nat, len: nat, i: nat)
    requires len > 1 && i <= dim + 1
    ensures Sorted(From(dim, len, i))
    decreases len - 1, 1 + dim + 1 - i
  {
    if i <= dim {
      AllSorted(dim - i, len - 1);
      FromSorted(dim, len, i + 1);
      AllSound(dim - i, len - 1);
      FromSound(dim, len, i + 1);
      var sub, rest, all := All(dim - i, len - 1), From(dim, len, i + 1), From(dim, len, i);
      forall j, k | 0 <= j < k < |all|
        ensures Before(all[j], all[k])
      {
        if k < |sub| {
          assert all[j][1..] == sub[j] && all[k][1..] == sub[k];
        } else if j < |sub| {
          assert all[j][0] == i && all[k] == rest[k - |sub|];
        } else {
          assert all[j] == rest[j - |sub|] && all[k] == rest[k - |sub|];
        }
      }
    }
  }

  lemma {:induction false} TotalAtLeast(s: seq<nat>)
    requires |s| > 0
    ensures s[0] <= Total(s)
  {
  }

  /** Every sequence of that length and sum is listed. */
  lemma {:induction false} AllComplete(s: seq<nat>) returns (k: nat)
    requires |s| > 0
    ensures k < |All(Total(s), |s|)| && All(Total(s), |s|)[k] == s
    decreases |s|, 0
  {
    if |s| == 1 {
      assert Total(s[1..]) == 0;
      k := 0;
    } else {
      k := FromComplete(s, 0);
    }
  }

  lemma {:induction false} FromComplete(s: seq<nat>, i: nat) returns (k: nat)
    requires |s| > 1 && i <= s[0]
    ensures k < |From(Total(s), |s|, i)| && From(Total(s), |s|, i)[k] == s
    decreases |s| - 1, 1 + Total(s) + 1 - i
  {
    TotalAtLeast(s);
    if s[0] == i {
      k := AllComplete(s[1..]);
      assert s == [i] + s[1..];
    } else {
      k := FromComplete(s, i + 1);
      k := k + |All(Total(s) - i, |s| - 1)|;
    }
  }

  /** The step of the iterator as a function: past the end, the first item exceeds dim. */
  function Next(dim: nat, run: seq<nat>): (next: seq<nat>)
    requires |run| > 0 && Total(run) == dim
    ensures |next| == |run|
    decreases |run|
  {
    if run[0] >= dim then run[0 := dim + 1]
    else if |run| == 1 then assert Total(run[1..]) == 0; run
    else
      var sub := Next(dim - run[0], run[1..]);
      if sub[0] == dim - run[0] + 1 then [run[0] + 1] + First(dim - run[0] - 1, |run| - 1) else [run[0]] + sub
  }

  /** The first and the past-the-end item. */
  function First(dim: nat, len: nat): (s: seq<nat>)
    requires len > 0
    ensures |s| == len
  {
    Odometers.Zeros(len - 1) + [dim]
  }

  function End(dim: nat, len: nat): (s: seq<nat>)
    requires len > 0
    ensures |s| == len
  {
    [dim + 1] + Odometers.Zeros(len - 1)
  }

  /** The k-th item, or the past-the-end one. */
  function ItemOrEnd(ss: seq<seq<nat>>, k: nat, dim: nat, len: nat): seq<nat>
    requires len > 0
  {
    if k < |ss| then ss[k] else End(dim, len)
  }

  lemma {:induction false} ZeroTotal(s: seq<nat>)
    requires Total(s) == 0
    ensures s == Odometers.Zeros(|s|)
  {
    if |s| > 0 { ZeroTotal(s[1..]); }
  }

  lemma {:induction false} ZerosTotal(s: seq<nat>)
    requires forall i :: 0 <= i < |s| ==> s[i] == 0
    ensures Total(s) == 0
  {
    if |s| > 0 { ZerosTotal(s[1..]); }
  }

  /** The enumeration starts at (0, .., 0, dim). */
  lemma {:induction false} FirstItem(dim: nat, len: nat)
    requires len > 0
    ensures |All(dim, len)| > 0 && All(dim, len)[0] == First(dim, len)
    decreases len
  {
    if len > 1 {
      FirstItem(dim, len - 1);
      assert All(dim, len)[0] == [0] + First(dim, len - 1);
    }
  }

  /** The step takes every item to the next one, and the last one past the end. */
  lemma {:induction false} NextIsSuccessor(dim: nat, len: nat, k: nat)
    requires len > 0 && k < |All(dim, len)|
    ensures |All(dim, len)[k]| == len && Total(All(dim, len)[k]) == dim
    ensures Next(dim, All(dim, len)[k]) == ItemOrEnd(All(dim, len), k + 1, dim, len)
    decreases len, 0
  {
    AllSound(dim, len);
    if len > 1 {
      NextInFrom(dim, len, 0, k);
    }
  }

  lemma {:induction false} NextInFrom(dim: nat, len: nat, i: nat, k: nat)
    requires len > 1 && i <= dim && k < |From(dim, len, i)|
    ensures |From(dim, len, i)[k]| == len && Total(From(dim, len, i)[k]) == dim
    ensures Next(dim, From(dim, len, i)[k]) == ItemOrEnd(From(dim, len, i), k + 1, dim, len)
    decreases len - 1, 1 + dim + 1 - i
  {
    FromSound(dim, len, i);
    var sub, rest, all := All(dim - i, len - 1), From(dim, len, i + 1), From(dim, len, i);
    if k >= |sub| {
      NextInFrom(dim, len, i + 1, k - |sub|);
    } else {
      AllSound(dim - i, len - 1);
      var run := all[k];
      assert run == [i] + sub[k] && run[1..] == sub[k];
      if i == dim {
        ZeroTotal(sub[k]);
        assert Next(dim, run) == End(dim, len);
        OnlyZero(len - 1);
        assert rest == [];
      } else {
        NextIsSuccessor(dim - i, len - 1, k);
        if k + 1 < |sub| {
          TotalBelow(sub[k + 1]);
        } else {
          assert Next(dim - i, sub[k]) == End(dim - i, len - 1);
          FirstItem(dim - i - 1, len - 1);
          assert rest[0] == [i + 1] + First(dim - i - 1, len - 1);
        }
      }
    }
  }

  lemma TotalBelow(s: seq<nat>)
    requires |s| > 0
    ensures s[0] <= Total(s)
  {
  }

  /** Only the zero sequence has sum zero. */
  lemma OnlyZero(len: nat)
    requires len > 0
    ensures |All(0, len)| == 1
  {
    AllSound(0, len);
    var ss := All(0, len);
    if |ss| > 1 {
      ZeroTotal(ss[0]);
      ZeroTotal(ss[1]);
      assert false;
    }
  }

  /** The iterator; sub-iterators share its data. */
  class SymIterator {
    const dim: nat
    const run: array<nat>
    ghost var at: nat

    ghost predicate Valid()
      reads this, run
    {
      && run.Length > 0
      && at <= |All(dim, run.Length)|
      && run[..] == ItemOrEnd(All(dim, run.Length), at, dim, run.Length)
    }

    constructor (d: nat, len: nat)
      requires len > 0
      ensures Valid() && fresh(run) && dim == d && run.Length == len && at == 0
    {
      FirstItem(d, len);
      dim := d;
      run := new nat[len](k requires 0 <= k < len => if k == len - 1 then d else 0);
      at := 0;
      new;
      assert run[..] == First(d, len);
    }

    predicate AtEnd()
      requires Valid()
      reads this, run
      ensures AtEnd() <==> at == |All(dim, run.Length)|
    {
      AllSound(dim, run.Length);
      EndTotal(dim, run.Length);
      run[..] == End(dim, run.Length)
    }

    method Increment()
      requires Valid() && at < |All(dim, run.Length)|
      modifies this, run
      ensures Valid() && at == old(at) + 1
    {
      NextIsSuccessor(dim, run.Length, at);
      assert run[0..] == run[..];
      Step(run, 0, dim);
      assert run[0..] == run[..];
      at := at + 1;
    }

    /** Steps the part of the data from lo on. */
    static method Step(run: array<nat>, lo: nat, dim: nat)
      requires lo < run.Length && Total(run[lo..]) == dim
      modifies run
      ensures run[..lo] == old(run[..lo]) && run[lo..] == Next(dim, old(run[lo..]))
      decreases run.Length - lo
    {
      ghost var was := run[lo..];
      TotalBelow(was);
      if run[lo] == dim {
        run[lo] := run[lo] + 1;
      } else {
        ghost var head := run[lo];
        assert was[1..] == run[lo + 1..];
        if run.Length == lo + 2 {
          assert Total(was[1..]) == was[1] + Total(was[1..][1..]);
          run[lo] := run[lo] + 1;
          run[lo + 1] := run[lo + 1] - 1;
          assert Next(dim - head, was[1..]) == [dim - head + 1];
          assert run[lo..] == [head + 1] + First(dim - head - 1, 1);
        } else {
          Step(run, lo + 1, dim - run[lo]);
          ghost var sub := run[lo + 1..];
          assert run[..lo + 1][..lo] == run[..lo] && run[lo] == run[..lo + 1][lo];
          assert run[lo] == head && sub == Next(dim - head, was[1..]);
          if run[lo + 1] == dim - run[lo] + 1 {
            PastEnd(dim - head, was[1..]);
            run[lo] := run[lo] + 1;
            run[lo + 1] := 0;
            run[run.Length - 1] := dim - run[lo];
            assert run[lo..] == [head + 1] + First(dim - head - 1, run.Length - lo - 1);
          } else {
            assert run[lo..] == [head] + sub;
          }
        }
      }
    }
  }

  lemma EndTotal(dim: nat, len: nat)
    requires len > 0
    ensures Total(End(dim, len)) > dim
  {
  }

  /** A step that ends past the end leaves zeros behind. */
  lemma PastEnd(dim: nat, run: seq<nat>)
    requires |run| > 0 && Total(run) == dim && Next(dim, run)[0] == dim + 1
    ensures Next(dim, run) == End(dim, |run|)
  {
    TotalBelow(run);
    ZeroTotal(run[1..]);
    assert run[0] == dim;
  }
}
