/** What the derivatives by sigma of F(y, u, sigma eta, sigma) add to an equation: every sigma goes to the shock or to its own slot. */
module SigmaChoices {
  import opened Reals
  import opened RealSums
  import opened MultiIndices
  import opened Symmetries

  // ----- choices -----

  /** How many of the sigmas go to the shock. */
  function Shocks(c: seq<bool>): nat {
    if |c| == 0 then 0 else Shocks(c[..|c| - 1]) + if c[|c| - 1] then 1 else 0
  }

  /** The derivative of F that a choice for each sigma of sym gives. */
  function Chosen(sym: Sym, c: seq<bool>): Sym
    requires |c| == sym.s
  {
    ShocksBound(c);
    Mk(sym.y, sym.u, sym.up + Shocks(c), sym.s - Shocks(c))
  }

  lemma {:induction false} ShocksBound(c: seq<bool>)
    ensures Shocks(c) <= |c|
    decreases |c|
  {
    if |c| > 0 { ShocksBound(c[..|c| - 1]); }
  }

  /** The choices with one more sigma. */
  function Extended(cs: set<seq<bool>>, x: bool): set<seq<bool>> {
    set c | c in cs :: c + [x]
  }

  lemma InExtended(cs: set<seq<bool>>, x: bool, c: seq<bool>)
    ensures c in Extended(cs, x) <==> |c| > 0 && c[|c| - 1] == x && c[..|c| - 1] in cs
  {
    if c in Extended(cs, x) {
      var d :| d in cs && c == d + [x];
      assert c[..|c| - 1] == d;
    }
    if |c| > 0 && c[|c| - 1] == x && c[..|c| - 1] in cs {
      assert c == c[..|c| - 1] + [x];
    }
  }

  lemma {:induction false} ExtendedSize(cs: set<seq<bool>>, x: bool)
    ensures |Extended(cs, x)| == |cs|
    decreases |cs|
  {
    if cs == {} {
      assert Extended(cs, x) == {};
    } else {
      var d :| d in cs;
      var rest := cs - {d};
      ExtendedSize(rest, x);
      InExtended(rest, x, d + [x]);
      assert (d + [x])[..|d|] == d;
      ExtendedMore(cs, x, d);
    }
  }

  lemma ExtendedMore(cs: set<seq<bool>>, x: bool, d: seq<bool>)
    requires d in cs
    ensures Extended(cs, x) == Extended(cs - {d}, x) + {d + [x]}
  {
    var r, less := Extended(cs, x), Extended(cs - {d}, x) + {d + [x]};
    forall c: seq<bool>
      ensures c in r <==> c in less
    {
      if c in r {
        var e :| e in cs && c == e + [x];
        if e != d { assert e in cs - {d}; }
      }
      if c in less && c != d + [x] {
        var e :| e in cs - {d} && c == e + [x];
        assert e in cs;
      }
    }
  }

  /** The choices for k sigmas that send m of them to the shock. */
  function Choices(k: nat, m: nat): set<seq<bool>>
    decreases k
  {
    if k == 0 then if m == 0 then {[]} else {}
    else Extended(Choices(k - 1, m), false) + if m == 0 then {} else Extended(Choices(k - 1, m - 1), true)
  }

  lemma {:induction false} AreChoices(k: nat, m: nat, c: seq<bool>)
    ensures c in Choices(k, m) <==> |c| == k && Shocks(c) == m
    decreases k
  {
    hide Extended;
    if k > 0 {
      InExtended(Choices(k - 1, m), false, c);
      if m > 0 { InExtended(Choices(k - 1, m - 1), true, c); }
      if |c| > 0 {
        AreChoices(k - 1, m, c[..|c| - 1]);
        if m > 0 { AreChoices(k - 1, m - 1, c[..|c| - 1]); }
      }
    }
  }

  lemma BothSizes(kept: set<seq<bool>>, sent: set<seq<bool>>)
    ensures |Extended(kept, false) + Extended(sent, true)| == |kept| + |sent|
  {
    ExtendedSize(kept, false);
    ExtendedSize(sent, true);
    hide Extended;
    var a, b := Extended(kept, false), Extended(sent, true);
    forall c | c in a ensures c !in b {
      InExtended(kept, false, c);
      InExtended(sent, true, c);
    }
    assert a !! b;
  }

  lemma NoSigmaChoices(m: nat)
    ensures |Choices(0, m)| == Choose(0, m)
  {
    assert Choices(0, m) == if m == 0 then {[]} else {};
  }

  lemma NextSize(k: nat, m: nat)
    requires k > 0
    ensures |Choices(k, m)| == |Choices(k - 1, m)| + if m == 0 then 0 else |Choices(k - 1, m - 1)|
  {
    hide Extended;
    if m == 0 {
      assert Choices(k, 0) == Extended(Choices(k - 1, 0), false);
      ExtendedSize(Choices(k - 1, 0), false);
    } else {
      BothSizes(Choices(k - 1, m), Choices(k - 1, m - 1));
    }
  }

  /** There are as many as binomial coefficients say. */
  lemma {:induction false} CountChoices(k: nat, m: nat)
    ensures |Choices(k, m)| == Choose(k, m)
    decreases k
  {
    hide Choices;
    if k == 0 {
      NoSigmaChoices(m);
    } else {
      NextSize(k, m);
      CountChoices(k - 1, m);
      if m > 0 { CountChoices(k - 1, m - 1); } else { ChooseEnds(k - 1); }
    }
  }

  lemma ChoicesFor(sym: Sym, z: Sym)
    requires z.up >= sym.up
    ensures forall c: seq<bool> :: c in Choices(sym.s, z.up - sym.up) <==> |c| == sym.s && sym.up + Shocks(c) == z.up
  {
    forall c: seq<bool>
      ensures c in Choices(sym.s, z.up - sym.up) <==> |c| == sym.s && sym.up + Shocks(c) == z.up
    {
      AreChoices(sym.s, z.up - sym.up, c);
    }
  }

  /** The choices with an even number of shocks that give the derivative z; with an odd number the moment of the shock is zero. */
  function EvenChoices(sym: Sym, z: Sym): (cs: set<seq<bool>>)
    ensures forall c: seq<bool> :: c in cs <==> |c| == sym.s && IsEven(Shocks(c)) && Chosen(sym, c) == z
  {
    if z.up >= sym.up && IsEven(z.up - sym.up) && z.y == sym.y && z.u == sym.u && z.up - sym.up + z.s == sym.s then
      ChoicesFor(sym, z);
      Choices(sym.s, z.up - sym.up)
    else {}
  }

  /** How many there are. */
  lemma CountEvenChoices(sym: Sym, z: Sym)
    requires sym.up == 0
    ensures |EvenChoices(sym, z)| == if z.y == sym.y && z.u == sym.u && z.up + z.s == sym.s && IsEven(z.up) then Choose(sym.s, z.up) else 0
  {
    hide IsEven;
    CountChoices(sym.s, z.up);
  }

  // ----- the derivative of an expectation -----

  /** The k-fold derivative by sigma at zero of the expectation of F(y, u, sigma eta, sigma), starting from one of its partial
      derivatives: the chain rule sends each sigma to u' or to sigma, and m derivatives by u' meet the m-th moment of eta. */
  function SigmaDerivative(F: Sym -> real, moment: nat -> real, z: Sym, k: nat): real
    decreases k
  {
    if k == 0 then Mul(F(z), moment(z.up))
    else SigmaDerivative(F, moment, z.(s := z.s + 1), k - 1) + SigmaDerivative(F, moment, z.(up := z.up + 1), k - 1)
  }

  /** The derivative reached with m of k sigmas at the shock, times the moment. */
  function AtShock(F: Sym -> real, moment: nat -> real, z: Sym, k: nat): nat -> real {
    (m: nat) => if m <= k then Mul(F(Mk(z.y, z.u, z.up + m, z.s + k - m)), moment(z.up + m)) else 0.0
  }

  function Weighted(F: Sym -> real, moment: nat -> real, z: Sym, k: nat): nat -> real {
    (m: nat) => Mul(Choose(k, m) as real, AtShock(F, moment, z, k)(m))
  }

  /** The derivative is the binomial sum. */
  lemma {:induction false} SigmaBinomial(F: Sym -> real, moment: nat -> real, z: Sym, k: nat)
    ensures SigmaDerivative(F, moment, z, k) == Sum(Weighted(F, moment, z, k), 0, k + 1)
    decreases k
  {
    if k == 0 {
      NoSigma(F, moment, z);
    } else {
      var kept, sent := z.(s := z.s + 1), z.(up := z.up + 1);
      SigmaBinomial(F, moment, kept, k - 1);
      SigmaBinomial(F, moment, sent, k - 1);
      hide Weighted, SigmaDerivative;
      OneMoreSigma(F, moment, z, k);
      assert SigmaDerivative(F, moment, z, k) == SigmaDerivative(F, moment, kept, k - 1) + SigmaDerivative(F, moment, sent, k - 1) by {
        SplitSigma(F, moment, z, k);
      }
    }
  }

  lemma SplitSigma(F: Sym -> real, moment: nat -> real, z: Sym, k: nat)
    requires k > 0
    ensures SigmaDerivative(F, moment, z, k) ==
      SigmaDerivative(F, moment, z.(s := z.s + 1), k - 1) + SigmaDerivative(F, moment, z.(up := z.up + 1), k - 1)
  {
  }

  lemma NoSigma(F: Sym -> real, moment: nat -> real, z: Sym)
    ensures SigmaDerivative(F, moment, z, 0) == Sum(Weighted(F, moment, z, 0), 0, 1)
  {
    hide Mul, Mk;
    var f := Weighted(F, moment, z, 0);
    SumLast(f, 0, 0);
    SumEmpty(f, 0);
    MulUnits(AtShock(F, moment, z, 0)(0));
    SameSym(z);
  }

  lemma OneMoreSigma(F: Sym -> real, moment: nat -> real, z: Sym, k: nat)
    requires k > 0
    ensures Sum(Weighted(F, moment, z, k), 0, k + 1) ==
      Sum(Weighted(F, moment, z.(s := z.s + 1), k - 1), 0, k) + Sum(Weighted(F, moment, z.(up := z.up + 1), k - 1), 0, k)
  {
    hide Weighted, Sum;
    var f, g, h := Weighted(F, moment, z, k), Weighted(F, moment, z.(s := z.s + 1), k - 1), Weighted(F, moment, z.(up := z.up + 1), k - 1);
    var h1 := (m: nat) => if m == 0 then 0.0 else h(m - 1);
    SumLast(g, 0, k);
    LastIsNothing(F, moment, z.(s := z.s + 1), k);
    SumFirst(h1, 0, k + 1);
    SumShift(h, h1, 0, k, 1);
    forall m: nat | m < k + 1
      ensures f(m) == g(m) + h1(m)
    {
      PascalTerm(F, moment, z, k, m);
    }
    SumPlus(g, h1, f, 0, k + 1);
  }

  lemma SameSym(z: Sym)
    ensures Mk(z.y, z.u, z.up, z.s) == z
  {
  }

  lemma LastIsNothing(F: Sym -> real, moment: nat -> real, z: Sym, k: nat)
    requires k > 0
    ensures Weighted(F, moment, z, k - 1)(k) == 0.0
  {
    hide Mul;
    ChooseAbove(k - 1, k);
    MulUnits(AtShock(F, moment, z, k - 1)(k));
  }

  lemma PascalTerm(F: Sym -> real, moment: nat -> real, z: Sym, k: nat, m: nat)
    requires 0 < k && m <= k
    ensures Weighted(F, moment, z, k)(m) == Weighted(F, moment, z.(s := z.s + 1), k - 1)(m) +
      if m == 0 then 0.0 else Weighted(F, moment, z.(up := z.up + 1), k - 1)(m - 1)
  {
    hide Mul, Mk;
    var t := AtShock(F, moment, z, k)(m);
    if m < k { assert t == AtShock(F, moment, z.(s := z.s + 1), k - 1)(m); } else { LastIsNothing(F, moment, z.(s := z.s + 1), k); }
    if m > 0 {
      assert t == AtShock(F, moment, z.(up := z.up + 1), k - 1)(m - 1);
      ChooseAbove(k - 1, k);
      MulDistributes(t, Choose(k - 1, m - 1) as real, Choose(k - 1, m) as real);
      MulUnits(t);
    } else {
      ChooseEnds(k);
      ChooseEnds(k - 1);
    }
  }
}
