/** Derivative symmetries y^i u^j u'^m s^k, and the chain-rule terms of
    G(y,u,u',s) = g**(g*(y,u,s), u', s) and of F = f(G, g, y, u). */
module Symmetries {
  datatype Sym = Sym(y: nat, u: nat, up: nat, s: nat) {
    function Dim(): nat { y + u + up + s }
  }

  function Mk(y: nat, u: nat, up: nat, s: nat): (c: Sym)
    ensures c.y == y && c.u == u && c.up == up && c.s == s
  {
    Sym(y, u, up, s)
  }

  // The first-order symmetries.
  predicate IsY(c: Sym) { c.y == 1 && c.Dim() == 1 }
  predicate IsU(c: Sym) { c.u == 1 && c.Dim() == 1 }
  predicate IsUp(c: Sym) { c.up == 1 && c.Dim() == 1 }
  predicate IsS(c: Sym) { c.s == 1 && c.Dim() == 1 }

  predicate IsEven(i: nat) { i % 2 == 0 }

  /** The derivatives of g that are not zero: none by u', and an even number by sigma. */
  predicate Regular(c: Sym) {
    c.up == 0 && IsEven(c.s) && c.Dim() > 0
  }

  // ----- terms of the chain rule for G -----

  /** A term of the chain rule: the classes of an equivalence of the variables of
      differentiation, each given by the symmetry it picks. */
  type Term = seq<Sym>

  function SumY(t: Term): nat { if |t| == 0 then 0 else t[0].y + SumY(t[1..]) }
  function SumU(t: Term): nat { if |t| == 0 then 0 else t[0].u + SumU(t[1..]) }
  function SumUp(t: Term): nat { if |t| == 0 then 0 else t[0].up + SumUp(t[1..]) }
  function SumS(t: Term): nat { if |t| == 0 then 0 else t[0].s + SumS(t[1..]) }

  function Total(t: Term): nat { SumY(t) + SumU(t) + SumUp(t) + SumS(t) }

  /** The classes together pick all variables of sym. */
  ghost predicate IsTerm(sym: Sym, t: Term) {
    && SumY(t) == sym.y && SumU(t) == sym.u && SumUp(t) == sym.up && SumS(t) == sym.s
    && forall i :: 0 <= i < |t| ==> t[i].Dim() > 0
  }

  /** Which argument of g** a class is fed to: u' alone and sigma alone have their own, all
      others go through g*. */
  predicate ThroughG(c: Sym) { !IsUp(c) && !IsS(c) }

  function CountG(t: Term): nat { if |t| == 0 then 0 else (if ThroughG(t[0]) then 1 else 0) + CountG(t[1..]) }
  function CountUp(t: Term): nat { if |t| == 0 then 0 else (if IsUp(t[0]) then 1 else 0) + CountUp(t[1..]) }
  function CountS(t: Term): nat { if |t| == 0 then 0 else (if IsS(t[0]) then 1 else 0) + CountS(t[1..]) }

  /** The term multiplies the derivative c of g**: by y for the classes through g*, by u for
      those that are u' alone, by sigma for those that are sigma alone. */
  predicate IsOuter(t: Term, c: Sym) {
    c.y == CountG(t) && c.u == CountUp(t) && c.up == 0 && c.s == CountS(t)
  }

  /** The derivatives of g a term needs: of g** for the term, of g* for each class through it. */
  ghost predicate Needs(t: Term, c: Sym) {
    IsOuter(t, c) || (ThroughG(c) && exists i :: 0 <= i < |t| && t[i] == c)
  }

  /** A term contributes when none of its factors is zero. */
  ghost predicate Nonzero(t: Term) {
    forall c: Sym :: Needs(t, c) ==> Regular(c)
  }

  /** A term is added by Faa Di Bruno when all of its factors are in the container. */
  ghost predicate Available(g: set<Sym>, t: Term) {
    forall c: Sym :: Needs(t, c) ==> c in g
  }

  lemma {:induction false} TotalBounds(t: Term)
    requires forall i :: 0 <= i < |t| ==> t[i].Dim() > 0
    ensures Total(t) >= |t|
    ensures forall i :: 0 <= i < |t| ==> t[i].Dim() + |t| - 1 <= Total(t)
    decreases |t|
  {
    if |t| > 0 {
      TotalBounds(t[1..]);
      forall i | 0 < i < |t| ensures t[i].Dim() + |t| - 1 <= Total(t) {
        assert t[i] == t[1..][i - 1];
      }
    }
  }

  lemma {:induction false} CountAll(t: Term)
    ensures CountG(t) + CountUp(t) + CountS(t) == |t|
    decreases |t|
  {
    if |t| > 0 { CountAll(t[1..]); }
  }

  lemma {:induction false} CountSingletons(t: Term)
    requires forall i :: 0 <= i < |t| ==> t[i].Dim() == 1
    ensures CountG(t) == SumY(t) + SumU(t) && CountUp(t) == SumUp(t) && CountS(t) == SumS(t)
    decreases |t|
  {
    if |t| > 0 { CountSingletons(t[1..]); }
  }

  /** What a term of a symmetry of order n > 1 needs: everything is of an order below n, except
      that the one-class term needs the symmetry itself and the n-class term a derivative of order n. */
  lemma TermNeeds(sym: Sym, t: Term, c: Sym)
    requires IsTerm(sym, t) && sym.Dim() > 1 && Needs(t, c)
    ensures 1 <= |t| <= sym.Dim()
    ensures |t| == 1 ==> t == [sym] && (c == sym || IsY(c))
    ensures |t| == sym.Dim() ==> c.Dim() <= 1 || IsStraight(sym, c)
    ensures 1 < |t| < sym.Dim() ==> c.Dim() < sym.Dim()
  {
    TotalBounds(t);
    CountAll(t);
    if |t| == 1 {
      OneClass(sym, t);
    }
    if |t| == sym.Dim() {
      CountSingletons(t);
    }
  }

  /** The derivative of g** that the term with singleton classes multiplies. */
  predicate IsStraight(sym: Sym, c: Sym) {
    c.y == sym.y + sym.u && c.u == sym.up && c.up == 0 && c.s == sym.s
  }

  lemma OneClass(sym: Sym, t: Term)
    requires IsTerm(sym, t) && |t| == 1
    ensures t == [sym]
    ensures sym.Dim() > 1 ==> CountG(t) == 1 && CountUp(t) == 0 && CountS(t) == 0
  {
    assert t[1..] == [];
    assert SumY(t[1..]) == 0 && SumU(t[1..]) == 0 && SumUp(t[1..]) == 0 && SumS(t[1..]) == 0;
    assert t[0] == sym && t == [t[0]];
  }

  /** Which terms need the derivative by the symmetry itself. */
  lemma NeedsItself(sym: Sym, t: Term)
    requires IsTerm(sym, t) && sym.Dim() > 1 && sym.up == 0
    ensures 1 <= |t| <= sym.Dim()
    ensures Needs(t, sym) <==> |t| == 1 || (|t| == sym.Dim() && IsStraight(sym, sym))
  {
    TotalBounds(t);
    CountAll(t);
    if |t| == 1 {
      OneClass(sym, t);
      assert t[0] == sym && ThroughG(sym);
    }
    if |t| == sym.Dim() {
      CountSingletons(t);
    }
    if Needs(t, sym) {
      TermNeeds(sym, t, sym);
    }
  }

  // ----- terms of the chain rule for F -----

  /** The arguments of f. */
  datatype Stack = InG | Ing | InY | InU

  datatype Factor = Factor(stack: Stack, c: Sym)

  type ZTerm = seq<Factor>

  function Classes(t: ZTerm): (r: Term)
    ensures |r| == |t| && forall i :: 0 <= i < |t| ==> r[i] == t[i].c
  {
    seq(|t|, i requires 0 <= i < |t| => t[i].c)
  }

  /** The factor is not identically zero. */
  predicate ZNonzero(f: Factor) {
    match f.stack
    case InG => IsEven(f.c.s)
    case Ing => Regular(f.c)
    case InY => IsY(f.c)
    case InU => IsU(f.c)
  }

  /** A term of the chain rule for F by sym, none of whose factors is zero. */
  ghost predicate IsZTerm(sym: Sym, t: ZTerm) {
    IsTerm(sym, Classes(t)) && forall i :: 0 <= i < |t| ==> ZNonzero(t[i])
  }

  // ----- parity -----

  lemma {:induction false} EvenSum(t: Term)
    requires forall i :: 0 <= i < |t| ==> t[i].s % 2 == 0
    ensures SumS(t) % 2 == 0
    decreases |t|
  {
    if |t| > 0 { EvenSum(t[1..]); }
  }

  /** F by an odd number of sigma has no term without a zero factor. */
  lemma ZTermsEven(sym: Sym, t: ZTerm)
    requires IsZTerm(sym, t)
    ensures sym.s % 2 == 0
  {
    var classes := Classes(t);
    forall i | 0 <= i < |classes|
      ensures classes[i].s % 2 == 0
    {
      assert ZNonzero(t[i]);
    }
    EvenSum(classes);
  }

  lemma {:induction false} SigmaClasses(t: Term)
    requires forall i :: 0 <= i < |t| && ThroughG(t[i]) ==> t[i].s % 2 == 0
    ensures (SumS(t) - CountS(t)) % 2 == 0
    decreases |t|
  {
    if |t| > 0 { SigmaClasses(t[1..]); }
  }

  /** G by an odd number of sigma has none either. */
  lemma TermsEven(sym: Sym, t: Term)
    requires IsTerm(sym, t) && Nonzero(t)
    ensures sym.s % 2 == 0
  {
    forall i | 0 <= i < |t| && ThroughG(t[i])
      ensures t[i].s % 2 == 0
    {
      assert Needs(t, t[i]);
    }
    SigmaClasses(t);
    var outer := Mk(CountG(t), CountUp(t), 0, CountS(t));
    assert Needs(t, outer);
  }

  /** A factor of a term is of lower order, or it is the whole term. */
  lemma ZTermFactors(sym: Sym, t: ZTerm, i: nat)
    requires IsZTerm(sym, t) && i < |t|
    ensures 0 < t[i].c.Dim() < sym.Dim() || t[i].c == sym
  {
    var classes := Classes(t);
    assert classes[i] == t[i].c;
    TotalBounds(classes);
    if |t| == 1 {
      OneClass(sym, classes);
    }
  }
}
