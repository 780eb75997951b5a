/** All partial derivatives of a formula up to an order, stored by folded multi-index
    with the zero ones left out. */
module FormulaDerivativesModule {
  import opened Wrappers
  import opened Terms
  import opened OperationTrees
  import opened MultiIndices

  /** The term reached from f by differentiating by the variables of mi in turn, as far as
      the tree has already differentiated. */
  function Iterated(s: Snapshot, f: nat, vars: seq<nat>, mi: seq<nat>): Option<nat>
    requires forall i :: 0 <= i < |mi| ==> mi[i] < |vars|
    decreases |mi|
  {
    if |mi| == 0 then Some(f)
    else
      var prev := Iterated(s, f, vars, mi[..|mi| - 1]);
      if prev == None then None else KnownIn(s, prev.value, vars[mi[|mi| - 1]])
  }

  lemma {:induction false} IteratedGrows(a: Snapshot, b: Snapshot, f: nat, vars: seq<nat>, mi: seq<nat>)
    requires Grows(a, b)
    requires forall i :: 0 <= i < |mi| ==> mi[i] < |vars|
    requires Iterated(a, f, vars, mi).Some?
    ensures Iterated(b, f, vars, mi) == Iterated(a, f, vars, mi)
    decreases |mi|
  {
    if |mi| > 0 {
      IteratedGrows(a, b, f, vars, mi[..|mi| - 1]);
      KnownGrows(a, b, Iterated(a, f, vars, mi[..|mi| - 1]).value, vars[mi[|mi| - 1]]);
    }
  }

  /** Every stored derivative is the iterated derivative of its multi-index. */
  ghost predicate Listed(s: Snapshot, f: nat, vars: seq<nat>, tder: seq<nat>, indices: seq<seq<nat>>) {
    && |tder| == |indices|
    && forall i :: 0 <= i < |tder| ==>
         Folded(indices[i], |vars|) && Iterated(s, f, vars, indices[i]) == Some(tder[i]) && tder[i] < |s.terms|
  }

  /** The derivative of this multi-index has been taken, and is stored unless it is zero. */
  ghost predicate Taken(s: Snapshot, f: nat, vars: seq<nat>, indices: seq<seq<nat>>, mi: seq<nat>)
    requires Folded(mi, |vars|)
  {
    && Iterated(s, f, vars, mi).Some?
    && (|mi| == 0 || Iterated(s, f, vars, mi) != Some(ZERO) ==> mi in indices)
  }

  ghost predicate Complete(s: Snapshot, f: nat, vars: seq<nat>, indices: seq<seq<nat>>, len: nat) {
    forall mi :: |mi| == len && Folded(mi, |vars|) ==> Taken(s, f, vars, indices, mi)
  }

  lemma ListedGrows(a: Snapshot, b: Snapshot, f: nat, vars: seq<nat>, tder: seq<nat>, indices: seq<seq<nat>>)
    requires Grows(a, b) && Listed(a, f, vars, tder, indices)
    ensures Listed(b, f, vars, tder, indices)
  {
    forall i | 0 <= i < |tder|
      ensures Iterated(b, f, vars, indices[i]) == Some(tder[i])
    {
      IteratedGrows(a, b, f, vars, indices[i]);
    }
  }

  lemma TakenGrows(a: Snapshot, b: Snapshot, f: nat, vars: seq<nat>, old_: seq<seq<nat>>, new_: seq<seq<nat>>)
    requires Grows(a, b) && old_ <= new_
    ensures forall mi :: Folded(mi, |vars|) && Taken(a, f, vars, old_, mi) ==> Taken(b, f, vars, new_, mi)
  {
    forall mi | Folded(mi, |vars|) && Taken(a, f, vars, old_, mi)
      ensures Taken(b, f, vars, new_, mi)
    {
      IteratedGrows(a, b, f, vars, mi);
      assert forall m :: m in old_ ==> m in new_;
    }
  }

  /** Extending a multi-index whose derivative is zero, or was never stored, gives zero. */
  lemma ZeroExtends(s: Snapshot, f: nat, vars: seq<nat>, indices: seq<seq<nat>>, mi: seq<nat>)
    requires |mi| > 1 && Folded(mi, |vars|) && Folded(mi[..|mi| - 1], |vars|)
    requires forall v :: v in vars ==> v >= NUM_CONSTANTS
    requires ZERO < |s.terms| && ZERO < |s.nul| && ZERO < |s.ders| && s.terms[ZERO] == Nulary
    requires Taken(s, f, vars, indices, mi[..|mi| - 1]) && mi[..|mi| - 1] !in indices
    ensures Iterated(s, f, vars, mi) == Some(ZERO)
  {
    assert vars[mi[|mi| - 1]] in vars;
  }

  /** New entries of order k have been appended. */
  ghost predicate Appends(old_: seq<seq<nat>>, new_: seq<seq<nat>>, k: nat) {
    old_ <= new_ && forall i :: |old_| <= i < |new_| ==> |new_[i]| == k
  }

  lemma AppendsTrans(a: seq<seq<nat>>, b: seq<seq<nat>>, c: seq<seq<nat>>, k: nat)
    requires Appends(a, b, k) && Appends(b, c, k)
    ensures Appends(a, c, k)
  {}

  /** All extensions of prefix by variables from lo to hi have been taken. */
  ghost predicate Covers(s: Snapshot, f: nat, vars: seq<nat>, indices: seq<seq<nat>>, prefix: seq<nat>, lo: nat, hi: nat) {
    forall x: nat :: lo <= x < hi && Folded(prefix + [x], |vars|) ==> Taken(s, f, vars, indices, prefix + [x])
  }

  lemma CoversStep(a: Snapshot, b: Snapshot, f: nat, vars: seq<nat>, old_: seq<seq<nat>>, new_: seq<seq<nat>>, k: nat,
                   prefix: seq<nat>, lo: nat, hi: nat)
    requires Covers(a, f, vars, old_, prefix, lo, hi) && Grows(a, b) && Appends(old_, new_, k)
    requires Folded(prefix + [hi], |vars|) && Taken(b, f, vars, new_, prefix + [hi])
    ensures Covers(b, f, vars, new_, prefix, lo, hi + 1)
  {
    TakenGrows(a, b, f, vars, old_, new_);
  }

  /** Variables before the last one of prefix do not extend it, neither do those past the end. */
  lemma CoversNothing(s: Snapshot, f: nat, vars: seq<nat>, indices: seq<seq<nat>>, prefix: seq<nat>, first: nat)
    requires first == if |prefix| > 0 then prefix[|prefix| - 1] else 0
    ensures Covers(s, f, vars, indices, prefix, 0, first)
  {}

  lemma CoversAll(s: Snapshot, f: nat, vars: seq<nat>, indices: seq<seq<nat>>, prefix: seq<nat>, hi: nat)
    requires Covers(s, f, vars, indices, prefix, 0, hi) && hi >= |vars|
    ensures Covers(s, f, vars, indices, prefix, 0, |vars|)
  {}

  /** All extensions of the multi-indices from beg to end have been taken. */
  ghost predicate CoversRuns(s: Snapshot, f: nat, vars: seq<nat>, indices: seq<seq<nat>>, prefixes: seq<seq<nat>>,
                             beg: nat, end: nat)
    requires end <= |prefixes|
  {
    forall i :: beg <= i < end ==> Covers(s, f, vars, indices, prefixes[i], 0, |vars|)
  }

  lemma CoversRunsStep(a: Snapshot, b: Snapshot, f: nat, vars: seq<nat>, old_: seq<seq<nat>>, new_: seq<seq<nat>>, k: nat,
                       prefixes: seq<seq<nat>>, beg: nat, end: nat)
    requires end < |prefixes|
    requires CoversRuns(a, f, vars, old_, prefixes, beg, end) && Grows(a, b) && Appends(old_, new_, k)
    requires Covers(b, f, vars, new_, prefixes[end], 0, |vars|)
    ensures CoversRuns(b, f, vars, new_, prefixes, beg, end + 1)
  {
    TakenGrows(a, b, f, vars, old_, new_);
    forall i | beg <= i < end
      ensures Covers(b, f, vars, new_, prefixes[i], 0, |vars|)
    {
      assert Covers(a, f, vars, old_, prefixes[i], 0, |vars|);
    }
  }

  /** Taking all extensions of what is stored of order k - 1 takes all of order k. */
  lemma OrderCompletes(a: Snapshot, b: Snapshot, f: nat, vars: seq<nat>, old_: seq<seq<nat>>, new_: seq<seq<nat>>, k: nat, beg: nat)
    requires forall v :: v in vars ==> v >= NUM_CONSTANTS
    requires ZERO < |a.terms| && ZERO < |a.nul| && ZERO < |a.ders| && a.terms[ZERO] == Nulary
    requires k > 0 && Grows(a, b) && Appends(old_, new_, k) && beg <= |old_|
    requires CoversRuns(b, f, vars, new_, old_, beg, |old_|)
    requires forall len: nat :: len < k ==> Complete(a, f, vars, old_, len)
    requires forall i :: 0 <= i < |old_| ==> (|old_[i]| == k - 1 <==> beg <= i)
    ensures forall len: nat :: len <= k ==> Complete(b, f, vars, new_, len)
  {
    TakenGrows(a, b, f, vars, old_, new_);
    forall len: nat | len < k
      ensures Complete(b, f, vars, new_, len)
    {
      assert Complete(a, f, vars, old_, len);
    }
    forall mi | |mi| == k && Folded(mi, |vars|)
      ensures Taken(b, f, vars, new_, mi)
    {
      var prefix := mi[..k - 1];
      assert Complete(a, f, vars, old_, k - 1);
      assert Folded(prefix, |vars|) && Taken(a, f, vars, old_, prefix);
      assert mi == prefix + [mi[k - 1]];
      if prefix in old_ {
        var i :| 0 <= i < |old_| && old_[i] == prefix;
        assert Covers(b, f, vars, new_, old_[i], 0, |vars|);
      } else {
        ZeroExtends(a, f, vars, old_, mi);
        IteratedGrows(a, b, f, vars, mi);
      }
    }
  }

  class FormulaDerivatives {
    const nvar: nat
    const order: nat
    var tder: seq<nat>
    var indices: seq<seq<nat>>
    var ind2der: map<seq<nat>, nat>

    /** The stored derivative of a multi-index, zero when there is none. */
    function Stored(mi: seq<nat>): nat
      reads this
    {
      if mi in ind2der && ind2der[mi] < |tder| then tder[ind2der[mi]] else ZERO
    }

    /** All partial derivatives up to the order: what is stored, or zero, is the iterated derivative in index order. */
    ghost predicate Holds(s: Snapshot, f: nat, vars: seq<nat>)
      reads this
    {
      nvar == |vars| && forall mi :: |mi| <= order && Folded(mi, |vars|) ==> Iterated(s, f, vars, mi) == Some(Stored(mi))
    }

    constructor (otree: OperationTree, vars: seq<nat>, f: nat, maxOrder: nat)
      requires otree.Valid() && f < |otree.terms|
      requires forall v :: v in vars ==> v >= NUM_CONSTANTS
      modifies otree
      ensures otree.Valid() && Grows(old(otree.Snap()), otree.Snap())
      ensures order == maxOrder && Holds(otree.Snap(), f, vars)
    {
      nvar, order := |vars|, maxOrder;
      tder := [f];
      indices := [[]];
      ind2der := map[];
      new;
      ghost var s0 := otree.Snap();
      var lastOrderBeg, lastOrderEnd := 0, 1;
      var k := 1;
      assert Complete(otree.Snap(), f, vars, indices, 0);
      while k <= order && lastOrderBeg < lastOrderEnd
        invariant otree.Valid() && Grows(s0, otree.Snap())
        invariant k == 1 ==> lastOrderBeg < lastOrderEnd
        invariant 1 <= k <= order + 1 && 0 <= lastOrderBeg <= lastOrderEnd == |tder|
        invariant Listed(otree.Snap(), f, vars, tder, indices)
        invariant forall len: nat :: len < k ==> Complete(otree.Snap(), f, vars, indices, len)
        invariant forall i :: 0 <= i < |indices| ==> (|indices[i]| == k - 1 <==> lastOrderBeg <= i)
        invariant forall i :: 0 <= i < |indices| ==> |indices[i]| <= k - 1
        decreases order + 1 - k
      {
        TakeOrder(otree, vars, f, k, lastOrderBeg, lastOrderEnd);
        lastOrderBeg := lastOrderEnd;
        lastOrderEnd := |tder|;
        k := k + 1;
      }
      forall mi | |mi| <= order && Folded(mi, |vars|)
        ensures Taken(otree.Snap(), f, vars, indices, mi)
      {
        EarlyBreak(otree.Snap(), f, vars, indices, k, mi);
      }
      BuildIndex();
      forall mi | |mi| <= order && Folded(mi, |vars|)
        ensures Iterated(otree.Snap(), f, vars, mi) == Some(Stored(mi))
      {
        assert Taken(otree.Snap(), f, vars, indices, mi);
      }
    }

    /** Takes all derivatives of order k from those of order k - 1, stored from beg on. */
    method TakeOrder(otree: OperationTree, vars: seq<nat>, ghost f: nat, k: nat, beg: nat, end: nat)
      requires otree.Valid() && nvar == |vars| && k > 0
      requires forall v :: v in vars ==> v >= NUM_CONSTANTS
      requires beg <= end == |tder| && Listed(otree.Snap(), f, vars, tder, indices)
      requires forall len: nat :: len < k ==> Complete(otree.Snap(), f, vars, indices, len)
      requires forall i :: 0 <= i < |indices| ==> (|indices[i]| == k - 1 <==> beg <= i)
      modifies this`tder, this`indices, otree
      ensures otree.Valid() && Grows(old(otree.Snap()), otree.Snap())
      ensures Appends(old(indices), indices, k) && Listed(otree.Snap(), f, vars, tder, indices)
      ensures forall len: nat :: len <= k ==> Complete(otree.Snap(), f, vars, indices, len)
    {
      ghost var s0, ind0 := otree.Snap(), indices;
      ghost var zero := ZERO < |s0.terms| && ZERO < |s0.nul| && ZERO < |s0.ders| && s0.terms[ZERO] == Nulary;
      assert zero && Appends(ind0, indices, k) && CoversRuns(s0, f, vars, indices, ind0, beg, beg) && Grows(s0, s0);
      assert |indices| == |tder|;
      hide Grows, Iterated, Taken, KnownIn, OperationTree.Shape, OperationTree.CacheOk, CoversRuns, Covers, Complete;
      var run := beg;
      while run < end
        invariant beg <= run <= end
        invariant otree.Valid() && Grows(s0, otree.Snap())
        invariant Appends(ind0, indices, k) && Listed(otree.Snap(), f, vars, tder, indices)
        invariant CoversRuns(otree.Snap(), f, vars, indices, ind0, beg, run)
      {
        ghost var s1, ind1 := otree.Snap(), indices;
        assert indices[run] == ind0[run];
        TakeVariables(otree, vars, f, k, run);
        GrowsTrans(s0, s1, otree.Snap());
        AppendsTrans(ind0, ind1, indices, k);
        CoversRunsStep(s1, otree.Snap(), f, vars, ind1, indices, k, ind0, beg, run);
        run := run + 1;
      }
      OrderCompletes(s0, otree.Snap(), f, vars, ind0, indices, k, beg);
    }

    /** Differentiates one stored term by every variable from its last one on. */
    method TakeVariables(otree: OperationTree, vars: seq<nat>, ghost f: nat, k: nat, run: nat)
      requires otree.Valid() && nvar == |vars| && run < |indices| && |indices[run]| == k - 1
      requires Listed(otree.Snap(), f, vars, tder, indices)
      modifies this`tder, this`indices, otree
      ensures otree.Valid() && Grows(old(otree.Snap()), otree.Snap())
      ensures Appends(old(indices), indices, k) && Listed(otree.Snap(), f, vars, tder, indices)
      ensures Covers(otree.Snap(), f, vars, indices, old(indices)[run], 0, |vars|)
    {
      hide Grows, Iterated, Listed, Taken, KnownIn, OperationTree.Shape, OperationTree.CacheOk, Covers;
      ghost var s0, ind0 := otree.Snap(), indices;
      var prefix := indices[run];
      var fmi := new FoldMultiIndex.Shifted(nvar, prefix, 1);
      var ivarStart := fmi.data[k - 1];
      assert fmi.data[..] == prefix + [ivarStart];
      StartOfRun(s0, f, vars, tder, indices, run, ivarStart);
      var ivar := ivarStart;
      while ivar < nvar
        invariant ivarStart <= ivar
        invariant fmi.nvar == nvar && fmi.ord == k == fmi.data.Length && fresh(fmi.data)
        invariant ivar < nvar ==> fmi.data[..] == prefix + [ivar]
        invariant otree.Valid() && Grows(s0, otree.Snap())
        invariant Appends(ind0, indices, k) && Listed(otree.Snap(), f, vars, tder, indices)
        invariant Covers(otree.Snap(), f, vars, indices, prefix, 0, ivar)
      {
        ghost var s1, ind1 := otree.Snap(), indices;
        var mi := fmi.data[..];
        FoldedExtension(prefix, ivar, nvar);
        assert indices[run] == prefix;
        TakeVariable(otree, vars, f, run, ivar, mi);
        GrowsTrans(s0, s1, otree.Snap());
        AppendsTrans(ind0, ind1, indices, k);
        CoversStep(s1, otree.Snap(), f, vars, ind1, indices, k, prefix, 0, ivar);
        ghost var turn := fmi.Increment();
        if ivar + 1 < nvar { LastTurns(prefix, ivar, nvar, turn); }
        ivar := ivar + 1;
      }
      CoversAll(otree.Snap(), f, vars, indices, prefix, ivar);
    }

    /** Differentiates one stored term by one variable. */
    method TakeVariable(otree: OperationTree, vars: seq<nat>, ghost f: nat, run: nat, ivar: nat, mi: seq<nat>)
      requires otree.Valid() && nvar == |vars| && run < |indices| && ivar < nvar
      requires mi == indices[run] + [ivar] && Folded(mi, |vars|)
      requires Listed(otree.Snap(), f, vars, tder, indices)
      modifies this`tder, this`indices, otree
      ensures otree.Valid() && Grows(old(otree.Snap()), otree.Snap())
      ensures Listed(otree.Snap(), f, vars, tder, indices)
      ensures Appends(old(indices), indices, |mi|)
      ensures Taken(otree.Snap(), f, vars, indices, mi)
    {
      ghost var s1 := otree.Snap();
      var der := otree.Differentiate(tder[run], vars[ivar]);
      ListedGrows(s1, otree.Snap(), f, vars, tder, indices);
      assert mi[..|mi| - 1] == indices[run];
      assert Iterated(otree.Snap(), f, vars, mi) == Some(der);
      hide Grows, KnownIn, Iterated;
      if der != ZERO {
        tder := tder + [der];
        indices := indices + [mi];
        assert indices[|indices| - 1] == mi;
      }
    }

    method BuildIndex()
      requires |tder| == |indices|
      modifies this`ind2der
      ensures forall mi :: mi in ind2der <==> mi in indices
      ensures forall mi :: mi in ind2der ==> ind2der[mi] < |indices| && indices[ind2der[mi]] == mi
    {
      ind2der := map[];
      var i := 0;
      while i < |indices|
        invariant 0 <= i <= |indices|
        invariant forall mi :: mi in ind2der <==> mi in indices[..i]
        invariant forall mi :: mi in ind2der ==> ind2der[mi] < i && indices[ind2der[mi]] == mi
      {
        if indices[i] !in ind2der {
          ind2der := ind2der[indices[i] := i];
        }
        assert indices[..i + 1] == indices[..i] + [indices[i]];
        i := i + 1;
      }
      assert indices[..i] == indices;
    }

    /** Random access; fails exactly on a multi-index of too high an order or over another number of
        variables, and otherwise finds the iterated derivative, though zeros are not stored. */
    method Derivative(mi: seq<nat>, nv: nat, ghost s: Snapshot, ghost f: nat, ghost vars: seq<nat>) returns (r: Option<nat>)
      requires Holds(s, f, vars) && Folded(mi, nv)
      ensures r.Some? <==> |mi| <= order && nv == |vars|
      ensures r.Some? ==> Iterated(s, f, vars, mi) == r
    {
      if |mi| > order {
        return None;
      }
      if nv != nvar {
        return None;
      }
      return Some(Stored(mi));
    }
  }

  lemma FoldedExtension(prefix: seq<nat>, x: nat, nv: nat)
    requires Folded(prefix, nv) && x < nv && (|prefix| > 0 ==> prefix[|prefix| - 1] <= x)
    ensures Folded(prefix + [x], nv)
  {}

  lemma StartOfRun(s: Snapshot, f: nat, vars: seq<nat>, tder: seq<nat>, indices: seq<seq<nat>>, run: nat, first: nat)
    requires Listed(s, f, vars, tder, indices) && run < |indices|
    requires first == if |indices[run]| > 0 then indices[run][|indices[run]| - 1] else 0
    ensures Folded(indices[run], |vars|) && Grows(s, s)
    ensures Covers(s, f, vars, indices, indices[run], 0, first)
  {
    CoversNothing(s, f, vars, indices, indices[run], first);
  }

  /** While the last item can grow, the successor changes only the last item. */
  lemma LastTurns(prefix: seq<nat>, x: nat, nv: nat, turn: nat)
    requires turn <= |prefix| && x + 1 < nv
    ensures (prefix + [x])[|prefix|] == x
    ensures Constant(|prefix| + 1, nv - 1)[|prefix|] == nv - 1
    ensures Turns(prefix + [x], nv, turn) ==> Bumped(prefix + [x], turn) == prefix + [x + 1]
  {
    assert (prefix + [x])[|prefix|] == x;
    assert Constant(1, x + 1) == [x + 1];
    assert (prefix + [x])[..|prefix|] == prefix;
  }

  /** When an order has no derivative other than zero, no higher order has one. */
  lemma {:induction false} EarlyBreak(s: Snapshot, f: nat, vars: seq<nat>, indices: seq<seq<nat>>, k: nat, mi: seq<nat>)
    requires forall v :: v in vars ==> v >= NUM_CONSTANTS
    requires ZERO < |s.terms| && ZERO < |s.nul| && ZERO < |s.ders| && s.terms[ZERO] == Nulary
    requires k >= 1 && forall len: nat :: len < k ==> Complete(s, f, vars, indices, len)
    requires Folded(mi, |vars|)
    requires |mi| >= k ==> k > 1 && forall i :: 0 <= i < |indices| ==> |indices[i]| < k - 1
    ensures Taken(s, f, vars, indices, mi)
    decreases |mi|
  {
    if |mi| < k {
      assert Complete(s, f, vars, indices, |mi|);
    } else {
      EarlyBreak(s, f, vars, indices, k, mi[..|mi| - 1]);
      ZeroExtends(s, f, vars, indices, mi);
    }
  }
}
