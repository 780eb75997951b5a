/** The schedule of the k-order perturbation step: which derivatives of g and G are in the
    containers when Faa Di Bruno is run conditionally on them, and which terms of the chain
    rule have been added to each derivative of G. */
module KOrders {
  import opened Reals
  import opened RealSums
  import opened MultiIndices
  import opened Symmetries
  import opened SigmaChoices

  /** A step that adds chain-rule terms to a derivative of G, with the content of the
      container of g it saw: Faa Di Bruno in all orders, in one order, or the derivative of g**
      by y^l multiplied by the derivatives of g*. */
  datatype Event =
    | AllOrders(g: set<Sym>)
    | OneOrder(l: nat, g: set<Sym>)
    | MultiplyY(l: nat, g: set<Sym>)

  ghost predicate Adds(e: Event, t: Term) {
    match e
    case AllOrders(g) => Available(g, t)
    case OneOrder(l, g) => |t| == l && Available(g, t)
    case MultiplyY(l, g) => |t| == l && CountG(t) == l && Available(g, t)
  }

  /** How many times a term has been added. */
  ghost function Times(events: seq<Event>, t: Term): nat {
    if |events| == 0 then 0 else (if Adds(events[0], t) then 1 else 0) + Times(events[1..], t)
  }

  /** Every term of the chain rule has been added once, unless it is zero. */
  ghost predicate Exact(sym: Sym, events: seq<Event>) {
    forall t :: IsTerm(sym, t) ==> Times(events, t) == if Nonzero(t) then 1 else 0
  }

  /** The same, except that terms with the derivative of g by sym itself are missing. */
  ghost predicate Conditional(sym: Sym, events: seq<Event>) {
    forall t :: IsTerm(sym, t) ==> Times(events, t) == if Nonzero(t) && !Needs(t, sym) then 1 else 0
  }

  /** Everything below order n is there, and nothing that is zero is. */
  ghost predicate Below(g: set<Sym>, n: nat) {
    && (forall c: Sym :: Regular(c) && c.Dim() < n ==> c in g)
    && (forall c: Sym :: c in g ==> Regular(c))
  }

  /** The derivative of g** the term with singleton classes needs is there, or it is the unknown. */
  ghost predicate StraightReady(sym: Sym, g: set<Sym>) {
    forall c: Sym :: IsStraight(sym, c) ==> c == sym || c in g
  }

  lemma AvailableUnlessNeeded(sym: Sym, g: set<Sym>, t: Term)
    requires IsTerm(sym, t) && sym.Dim() > 1 && Below(g, sym.Dim()) && sym !in g && StraightReady(sym, g)
    ensures Available(g, t) <==> Nonzero(t) && !Needs(t, sym)
  {
    hide IsEven;
    if Nonzero(t) && !Needs(t, sym) {
      forall c: Sym | Needs(t, c) ensures c in g {
        TermNeeds(sym, t, c);
        assert Regular(c);
      }
    }
  }

  lemma ThreeTimes(a: Event, b: Event, c: Event, t: Term)
    ensures Times([a], t) == if Adds(a, t) then 1 else 0
    ensures Times([a, b], t) == (if Adds(a, t) then 1 else 0) + (if Adds(b, t) then 1 else 0)
    ensures Times([a, b, c], t) == (if Adds(a, t) then 1 else 0) + (if Adds(b, t) then 1 else 0) + (if Adds(c, t) then 1 else 0)
  {
    hide Adds;
    assert [a][1..] == [] && [b][1..] == [] && [c][1..] == [];
    assert [a, b][1..] == [b] && [b, c][1..] == [c] && [a, b, c][1..] == [b, c];
    assert Times([c], t) == if Adds(c, t) then 1 else 0;
    assert Times([b], t) == if Adds(b, t) then 1 else 0;
    assert Times([b, c], t) == (if Adds(b, t) then 1 else 0) + Times([c], t);
  }

  /** Faa Di Bruno run before the derivative by sym is known misses just what needs it. */
  lemma ConditionalFirst(sym: Sym, g: set<Sym>)
    requires sym.Dim() > 1 && Below(g, sym.Dim()) && sym !in g && StraightReady(sym, g)
    ensures Conditional(sym, [AllOrders(g)])
  {
    var e := AllOrders(g);
    forall t | IsTerm(sym, t)
      ensures Times([e], t) == if Nonzero(t) && !Needs(t, sym) then 1 else 0
    {
      AvailableUnlessNeeded(sym, g, t);
      ThreeTimes(e, e, e, t);
    }
  }

  /** With u' among the variables nothing needs the derivative by sym: it is zero. */
  lemma ExactWithForwardShock(sym: Sym, g: set<Sym>)
    requires sym.Dim() > 1 && Below(g, sym.Dim()) && sym.up > 0 && StraightReady(sym, g)
    ensures Exact(sym, [AllOrders(g)])
  {
    assert !Regular(sym);
    hide IsEven;
    ConditionalFirst(sym, g);
    forall t | IsTerm(sym, t)
      ensures Times([AllOrders(g)], t) == if Nonzero(t) then 1 else 0
    {
      assert Needs(t, sym) ==> !Nonzero(t);
    }
  }

  /** Once the derivative by sym is stored, all terms that are not zero are available. */
  lemma AvailableAfter(sym: Sym, g: set<Sym>, t: Term)
    requires IsTerm(sym, t) && sym.Dim() > 1 && Regular(sym) && Below(g, sym.Dim()) && sym !in g && StraightReady(sym, g)
    ensures Available(g + {sym}, t) <==> Nonzero(t)
  {
    hide IsEven;
    if Nonzero(t) {
      forall c: Sym | Needs(t, c) ensures c in g + {sym} {
        TermNeeds(sym, t, c);
        assert Regular(c);
      }
    }
  }

  /** The updates that follow a solved equation complete the chain rule: one order when the
      n-class term was available from the start, two when it needs the solution. */
  lemma ExactAfterUpdates(sym: Sym, g: set<Sym>)
    requires sym.Dim() > 1 && Regular(sym) && Below(g, sym.Dim()) && sym !in g && StraightReady(sym, g)
    ensures var g' := g + {sym};
            Exact(sym, if IsStraight(sym, sym) then [AllOrders(g), OneOrder(1, g'), OneOrder(sym.Dim(), g')]
                       else [AllOrders(g), OneOrder(1, g')])
  {
    var g' := g + {sym};
    var a, b, c := AllOrders(g), OneOrder(1, g'), OneOrder(sym.Dim(), g');
    forall t | IsTerm(sym, t)
      ensures Times(if IsStraight(sym, sym) then [a, b, c] else [a, b], t) == if Nonzero(t) then 1 else 0
    {
      hide Available, Nonzero, Needs, IsTerm, Below;
      AvailableUnlessNeeded(sym, g, t);
      AvailableAfter(sym, g, t);
      NeedsItself(sym, t);
      ThreeTimes(a, b, c, t);
    }
  }

  /** The same for the first derivative of an order, updated tensor by tensor. */
  lemma ExactAfterMultiply(sym: Sym, g: set<Sym>)
    requires sym.y == sym.Dim() > 1 && Below(g, sym.Dim()) && sym !in g
    ensures var g' := g + {sym};
            Exact(sym, [AllOrders(g), MultiplyY(1, g'), MultiplyY(sym.y, g')])
  {
    var g' := g + {sym};
    var a, b, c := AllOrders(g), OneOrder(1, g'), OneOrder(sym.Dim(), g');
    var b', c' := MultiplyY(1, g'), MultiplyY(sym.y, g');
    assert IsEven(0) && Regular(sym) && IsStraight(sym, sym);
    ExactAfterUpdates(sym, g);
    forall t | IsTerm(sym, t)
      ensures Times([a, b', c'], t) == if Nonzero(t) then 1 else 0
    {
      OuterOfPure(sym, t);
      hide Available, Nonzero, IsTerm, Below;
      assert Times([a, b, c], t) == if Nonzero(t) then 1 else 0;
      ThreeTimes(a, b, c, t);
      ThreeTimes(a, b', c', t);
    }
  }

  lemma OuterOfPure(sym: Sym, t: Term)
    requires IsTerm(sym, t) && sym.y == sym.Dim() > 1
    ensures |t| == 1 || |t| == sym.y ==> CountG(t) == |t|
  {
    TotalBounds(t);
    if |t| == 1 { OneClass(sym, t); }
    if |t| == sym.y { CountSingletons(t); }
  }

  // ----- solved equations -----

  /** An equation that was solved for the derivative by sym: the derivatives of F that were
      summed to its right-hand side, and the containers at that time. */
  datatype Equation = Equation(sym: Sym, rhs: multiset<Sym>, g: set<Sym>, ledger: map<Sym, seq<Event>>)

  /** The factor was in its container and complete, or it is the unknown. */
  ghost predicate FactorReady(e: Equation, f: Factor) {
    match f.stack
    case InG => f.c in e.ledger && if f.c == e.sym then Conditional(f.c, e.ledger[f.c]) else Exact(f.c, e.ledger[f.c])
    case Ing => f.c in e.g || f.c == e.sym
    case InY => true
    case InU => true
  }

  /** No nonzero factor of any term of the right-hand side was missing, but for the unknown. */
  ghost predicate Ready(e: Equation) {
    forall z: Sym, t: ZTerm, i :: z in e.rhs && IsZTerm(z, t) && 0 <= i < |t| ==> FactorReady(e, t[i])
  }

  /** The right-hand side is F by sym with every sigma sent to its slot or to u', as often as there are choices with an even
      number of u' that give it. */
  ghost predicate CompleteRhs(e: Equation) {
    forall z: Sym :: e.rhs[z] == |EvenChoices(e.sym, z)|
  }

  /** The same as binomial coefficients. */
  ghost predicate BinomialRhs(sym: Sym, rhs: multiset<Sym>) {
    forall z: Sym :: rhs[z] == if Expected(sym, z) then Choose(sym.s, z.up) else 0
  }

  lemma BinomialIsComplete(e: Equation)
    requires e.sym.up == 0
    ensures CompleteRhs(e) <==> BinomialRhs(e.sym, e.rhs)
  {
    hide IsEven, Choose, EvenChoices;
    forall z: Sym
      ensures |EvenChoices(e.sym, z)| == if Expected(e.sym, z) then Choose(e.sym.s, z.up) else 0
    {
      CountEvenChoices(e.sym, z);
    }
  }

  /** What the equation adds up with m of the sigmas at the shock. */
  function RhsTerms(e: Equation, F: Sym -> real, moment: nat -> real): nat -> real {
    (m: nat) => if m <= e.sym.s then
        Mul(e.rhs[Mk(e.sym.y, e.sym.u, m, e.sym.s - m)] as real, Mul(F(Mk(e.sym.y, e.sym.u, m, e.sym.s - m)), moment(m)))
      else 0.0
  }

  /** A complete equation adds up the whole derivative by sigma of the expectation, when the odd moments of the shock are zero:
      the derivatives by u' it holds, with their moments and how often they occur. */
  lemma CompleteIsDerivative(e: Equation, F: Sym -> real, moment: nat -> real)
    requires CompleteRhs(e) && e.sym.up == 0 && forall m: nat :: m % 2 == 1 ==> moment(m) == 0.0
    ensures SigmaDerivative(F, moment, Mk(e.sym.y, e.sym.u, 0, 0), e.sym.s) == Sum(RhsTerms(e, F, moment), 0, e.sym.s + 1)
    ensures forall z :: z in e.rhs ==> z.up <= e.sym.s && z.up % 2 == 0 && z == Mk(e.sym.y, e.sym.u, z.up, e.sym.s - z.up)
  {
    hide Choose, EvenChoices, SigmaDerivative, Weighted, RhsTerms, BinomialRhs, CompleteRhs, Sum;
    BinomialIsComplete(e);
    RhsShape(e.sym, e.rhs);
    var z0, k := Mk(e.sym.y, e.sym.u, 0, 0), e.sym.s;
    SigmaBinomial(F, moment, z0, k);
    var f, g := Weighted(F, moment, z0, k), RhsTerms(e, F, moment);
    forall m: nat | m < k + 1
      ensures f(m) == g(m)
    {
      RhsTerm(e, F, moment, m);
    }
    SumSame(f, g, 0, k + 1);
  }

  lemma RhsShape(sym: Sym, rhs: multiset<Sym>)
    requires BinomialRhs(sym, rhs)
    ensures forall z :: z in rhs ==> z.up <= sym.s && z.up % 2 == 0 && z == Mk(sym.y, sym.u, z.up, sym.s - z.up)
  {
    hide Choose;
  }

  /** The equation for a derivative of g that is left out has no term without a zero factor, so zero solves it. */
  lemma LeftOutIsZero(sym: Sym, z: Sym, t: ZTerm)
    requires sym.up == 0 && sym.Dim() > 0 && !Regular(sym) && EvenChoices(sym, z) != {}
    ensures !IsZTerm(z, t)
  {
    ChoiceIsOdd(sym, z);
    hide IsZTerm, EvenChoices, Regular;
    if IsZTerm(z, t) { ZTermsEven(z, t); }
  }

  lemma ChoiceIsOdd(sym: Sym, z: Sym)
    requires sym.up == 0 && sym.Dim() > 0 && !Regular(sym) && EvenChoices(sym, z) != {}
    ensures z.s % 2 == 1
  {
    var c :| c in EvenChoices(sym, z);
    hide EvenChoices;
    assert Chosen(sym, c) == z && IsEven(Shocks(c));
  }

  /** A derivative of G that is left out has no term without a zero factor. */
  lemma LeftOutOfG(sym: Sym, t: Term)
    requires !IsEven(sym.s) && IsTerm(sym, t)
    ensures !Nonzero(t)
  {
    if Nonzero(t) { TermsEven(sym, t); }
  }

  lemma RhsTerm(e: Equation, F: Sym -> real, moment: nat -> real, m: nat)
    requires BinomialRhs(e.sym, e.rhs) && m <= e.sym.s && (!IsEven(m) ==> moment(m) == 0.0)
    ensures Weighted(F, moment, Mk(e.sym.y, e.sym.u, 0, 0), e.sym.s)(m) == RhsTerms(e, F, moment)(m)
  {
    hide IsEven, Choose, Mul, Mk;
    var z := Mk(e.sym.y, e.sym.u, m, e.sym.s - m);
    assert AtShock(F, moment, Mk(e.sym.y, e.sym.u, 0, 0), e.sym.s)(m) == Mul(F(z), moment(m));
    assert Expected(e.sym, z) <==> IsEven(m);
    if !IsEven(m) {
      MulUnits(F(z));
      MulUnits(Choose(e.sym.s, m) as real);
      MulUnits(0.0);
    }
  }

  lemma RhsExpected(e: Equation)
    requires CompleteRhs(e) && e.sym.up == 0
    ensures forall z :: z in e.rhs ==> Expected(e.sym, z)
  {
    hide IsEven, EvenChoices;
    BinomialIsComplete(e);
  }

  /** F by y^i u^j with some of the sigmas replaced by u', an even number of them. */
  predicate Expected(sym: Sym, z: Sym) {
    z.y == sym.y && z.u == sym.u && z.up + z.s == sym.s && IsEven(z.up)
  }

  // ----- progress -----

  /** Where a step of order n is: before it, at g_{y^i u^{n-i}}, or about to recover the
      derivatives with y^a u^b and everything else in u' and sigma. */
  datatype Phase = Start | Yu(i: nat) | Main(a: int, b: int)

  /** Which derivatives of order n have been stored. */
  predicate Done(n: nat, ph: Phase, c: Sym) {
    match ph
    case Start => false
    case Yu(i) => c.up == 0 && c.s == 0 && (c.y == n || c.y < i)
    case Main(a, b) => (c.up == 0 && c.s == 0) || c.y > a || (c.y == a && c.u > b)
  }

  // ----- the state of a step -----

  ghost predicate LedgerExact(ledger: map<Sym, seq<Event>>) {
    forall c :: c in ledger ==> Exact(c, ledger[c])
  }

  /** Every derivative of g above the first order was found by a complete equation that was ready. */
  ghost predicate Justified(g: set<Sym>, equations: map<Sym, Equation>) {
    && (forall c :: c in equations ==> equations[c].sym == c && Ready(equations[c]) && CompleteRhs(equations[c]))
    && (forall c: Sym :: c in g && c.Dim() > 1 ==> c in equations)
  }

  /** What the containers of g and G hold in a phase of a step of order n. */
  ghost predicate Holds(g: set<Sym>, G: set<Sym>, n: nat, ph: Phase) {
    && (forall c: Sym :: c in g <==> Regular(c) && (c.Dim() < n || (c.Dim() == n && Done(n, ph, c))))
    && (forall c: Sym :: c in G <==> c.Dim() > 0 && IsEven(c.s) && (c.Dim() < n || (c.Dim() == n && Done(n, ph, c))))
  }

  /** All derivatives up to order n are stored: of g those that are not zero, of G those by an
      even number of sigma. */
  ghost predicate Reached(g: set<Sym>, G: set<Sym>, n: nat) {
    && (forall c: Sym :: c in g <==> Regular(c) && c.Dim() <= n)
    && (forall c: Sym :: c in G <==> 0 < c.Dim() <= n && IsEven(c.s))
  }

  lemma ReachedIsStart(g: set<Sym>, G: set<Sym>, n: nat)
    requires Reached(g, G, n)
    ensures Holds(g, G, n + 1, Start)
  { hide IsEven; }

  lemma LastPhaseReaches(g: set<Sym>, G: set<Sym>, n: nat)
    requires Holds(g, G, n, Main(0, -1))
    ensures Reached(g, G, n)
  { hide IsEven; }

  lemma HoldsSame(g: set<Sym>, G: set<Sym>, n: nat, ph: Phase, ph': Phase)
    requires Holds(g, G, n, ph)
    requires forall c: Sym :: c.Dim() == n && IsEven(c.s) ==> (Done(n, ph, c) <==> Done(n, ph', c))
    ensures Holds(g, G, n, ph')
  { hide IsEven, Done; }

  /** All derivatives by y and u alone: the main part starts with y^(n-1). */
  lemma YuComplete(g: set<Sym>, G: set<Sym>, n: nat)
    requires Holds(g, G, n, Yu(n)) && n > 0
    ensures Holds(g, G, n, Main(n - 1, 0))
  {
    hide IsEven, Holds;
    HoldsSame(g, G, n, Yu(n), Main(n - 1, 0));
  }

  /** After the derivatives by y^a without u come those by y^(a-1). */
  lemma RowComplete(g: set<Sym>, G: set<Sym>, n: nat, a: nat)
    requires Holds(g, G, n, Main(a, -1)) && 0 < a <= n
    ensures Holds(g, G, n, Main(a - 1, n - a))
  {
    hide IsEven, Holds;
    HoldsSame(g, G, n, Main(a, -1), Main(a - 1, n - a));
  }

  lemma HoldsBelow(g: set<Sym>, G: set<Sym>, n: nat, ph: Phase)
    requires Holds(g, G, n, ph)
    ensures Below(g, n)
    ensures forall c: Sym :: c.Dim() > 0 && IsEven(c.s) && c.Dim() < n ==> c in G
  { hide IsEven, Done; }

  /** Storing one derivative of g and of G. */
  lemma HoldsMore(g: set<Sym>, G: set<Sym>, n: nat, ph: Phase, ph': Phase, sym: Sym)
    requires Holds(g, G, n, ph) && Regular(sym) && sym.Dim() == n
    requires forall c: Sym :: c.Dim() == n && IsEven(c.s) ==> (Done(n, ph', c) <==> Done(n, ph, c) || c == sym)
    ensures Holds(g + {sym}, G + {sym}, n, ph')
  { hide IsEven, Done; }

  /** The derivative by y alone is the first of its order. */
  lemma YNext(g: set<Sym>, G: set<Sym>, n: nat, sym: Sym)
    requires Holds(g, G, n, Start) && sym.y == n > 1 && sym.u == 0 && sym.up == 0 && sym.s == 0
    ensures sym !in g && sym !in G && Regular(sym) && StraightReady(sym, g)
    ensures Holds(g + {sym}, G + {sym}, n, Yu(0))
  {
    HoldsBelow(g, G, n, Start);
    assert IsEven(0);
    hide IsEven;
    forall c: Sym | c.Dim() == n && c.y == n
      ensures c == sym
    {
      SameFields(c, sym);
    }
    HoldsMore(g, G, n, Start, Yu(0), sym);
  }

  /** The next derivative by y and u alone finds the one by y alone, and is new. */
  lemma YuNext(g: set<Sym>, G: set<Sym>, n: nat, i: nat, sym: Sym)
    requires Holds(g, G, n, Yu(i)) && sym.y == i < n && sym.up == 0 && sym.s == 0 && sym.Dim() == n
    ensures sym !in g && sym !in G && Regular(sym) && StraightReady(sym, g) && !IsStraight(sym, sym)
    ensures Holds(g + {sym}, G + {sym}, n, Yu(i + 1))
  {
    assert IsEven(0);
    hide IsEven;
    forall c: Sym | c.Dim() == n && c.up == 0 && c.s == 0 && c.y == i
      ensures c == sym
    {
      SameFields(c, sym);
    }
  }

  /** The derivatives of G by y^a u^b with at least one u' have been stored on top of a phase. */
  ghost predicate Filled(g: set<Sym>, G: set<Sym>, n: nat, a: nat, b: nat) {
    && (forall c: Sym :: c in g <==> Regular(c) && (c.Dim() < n || (c.Dim() == n && Done(n, Main(a, b), c))))
    && (forall c: Sym :: c in G <==> c.Dim() > 0 && IsEven(c.s) && (c.Dim() < n || (c.Dim() == n && DoneOrFilled(n, a, b, c))))
  }

  predicate DoneOrFilled(n: nat, a: nat, b: nat, c: Sym) {
    Done(n, Main(a, b), c) || (c.y == a && c.u == b && c.up > 0)
  }

  lemma FilledIsBelow(g: set<Sym>, G: set<Sym>, n: nat, a: nat, b: nat)
    requires Filled(g, G, n, a, b)
    ensures Below(g, n)
    ensures forall c: Sym :: c.Dim() > 0 && IsEven(c.s) && c.Dim() < n ==> c in G
  { hide IsEven, Done, DoneOrFilled; }

  /** With an odd number of sigma left, there is nothing to solve for. */
  lemma FilledOdd(g: set<Sym>, G: set<Sym>, n: nat, a: nat, b: nat)
    requires Filled(g, G, n, a, b) && a + b < n && !IsEven(n - a - b)
    ensures Holds(g, G, n, Main(a, b - 1))
  { hide IsEven; }

  lemma FilledEven(g: set<Sym>, G: set<Sym>, n: nat, a: nat, b: nat, sym: Sym)
    requires Filled(g, G, n, a, b) && a + b < n && IsEven(n - a - b)
    requires sym.y == a && sym.u == b && sym.up == 0 && sym.Dim() == n
    ensures sym !in g && sym !in G && Regular(sym)
    ensures Holds(g + {sym}, G + {sym}, n, Main(a, b - 1))
  {
    hide IsEven;
    forall c: Sym | c.y == a && c.u == b && c.up == 0 && c.Dim() == n
      ensures c == sym
    {
      SameFields(c, sym);
    }
  }

  /** The derivative of g** with the singleton term comes earlier in the schedule. */
  lemma EarlierInSchedule(g: set<Sym>, n: nat, a: nat, b: nat, sym: Sym)
    requires forall c: Sym :: Regular(c) && c.Dim() == n && Done(n, Main(a, b), c) ==> c in g
    requires sym.y == a && sym.u == b && sym.Dim() == n && IsEven(sym.s) && a + b < n
    ensures StraightReady(sym, g)
  {
    hide IsEven;
    forall c: Sym | IsStraight(sym, c)
      ensures c == sym || c in g
    {
      assert Regular(c) && c.Dim() == n;
      if sym.up == 0 && b == 0 {
        SameFields(c, sym);
      }
    }
  }

  lemma FilledIsReady(g: set<Sym>, G: set<Sym>, n: nat, a: nat, b: nat, sym: Sym)
    requires Filled(g, G, n, a, b) && a + b < n && sym.y == a && sym.u == b && sym.up == 0 && sym.Dim() == n && IsEven(sym.s)
    ensures StraightReady(sym, g)
    ensures forall z: Sym :: Expected(sym, z) && z != sym ==> z in G
  {
    EarlierInSchedule(g, n, a, b, sym);
    forall z: Sym | Expected(sym, z) && z != sym ensures z in G {
      RhsStored(g, G, n, sym, z);
    }
  }

  /** The right-hand side of an equation has been stored in G, but for the unknown. */
  lemma RhsStored(g: set<Sym>, G: set<Sym>, n: nat, sym: Sym, z: Sym)
    requires Filled(g, G, n, sym.y, sym.u) && sym.up == 0 && sym.Dim() == n && IsEven(sym.s)
    requires Expected(sym, z) && z != sym
    ensures z in G
  {
    EvenDifference(sym.s, z.up);
    hide IsEven;
    if z.up == 0 { SameFields(z, sym); }
  }

  lemma EvenDifference(k: nat, m: nat)
    requires m <= k && IsEven(k)
    ensures IsEven(m) <==> IsEven(k - m)
  {}

  lemma ReadyNow(e: Equation, n: nat)
    requires e.sym.Dim() == n && Below(e.g, n) && (forall z :: z in e.rhs ==> Expected(e.sym, z))
    requires e.sym.up == 0
    requires forall c: Sym :: c.Dim() > 0 && IsEven(c.s) && c.Dim() < n ==> c in e.ledger
    requires forall z :: z in e.rhs && z != e.sym ==> z in e.ledger
    requires e.sym in e.ledger && Conditional(e.sym, e.ledger[e.sym])
    requires forall c :: c in e.ledger && c != e.sym ==> Exact(c, e.ledger[c])
    ensures Ready(e)
  {
    hide Exact, Conditional, IsEven, IsTerm;
    forall z: Sym, t: ZTerm, i | z in e.rhs && IsZTerm(z, t) && 0 <= i < |t|
      ensures FactorReady(e, t[i])
    {
      ZTermFactors(z, t, i);
      assert Expected(e.sym, z) && ZNonzero(t[i]);
    }
  }

  /** An equation over containers that hold everything before it is ready. */
  lemma SolvedReady(n: nat, e: Equation, ledger: map<Sym, seq<Event>>)
    requires e.sym.Dim() == n > 1 && e.sym.up == 0 && Below(e.g, n) && e.sym !in e.g && e.sym !in ledger && StraightReady(e.sym, e.g)
    requires LedgerExact(ledger) && e.ledger == ledger[e.sym := [AllOrders(e.g)]]
    requires forall c: Sym :: c.Dim() > 0 && IsEven(c.s) && c.Dim() < n ==> c in ledger
    requires (forall z :: z in e.rhs && z != e.sym ==> z in ledger) && CompleteRhs(e)
    ensures Ready(e)
  {
    ConditionalFirst(e.sym, e.g);
    RhsExpected(e);
    hide Exact, Conditional, IsEven, Below, Ready, StraightReady, CompleteRhs, Expected;
    ReadyNow(e, n);
  }

  /** Solving an equation and completing the derivative of G keeps the state justified. */
  lemma SolvedState(n: nat, e: Equation, ledger: map<Sym, seq<Event>>, equations: map<Sym, Equation>, events: seq<Event>)
    requires e.sym.Dim() == n > 1 && Regular(e.sym) && Below(e.g, n) && e.sym !in e.g && e.sym !in ledger
    requires StraightReady(e.sym, e.g)
    requires LedgerExact(ledger) && Justified(e.g, equations) && e.ledger == ledger[e.sym := [AllOrders(e.g)]]
    requires forall c: Sym :: c.Dim() > 0 && IsEven(c.s) && c.Dim() < n ==> c in ledger
    requires forall z :: z in e.rhs && z != e.sym ==> z in ledger
    requires CompleteRhs(e) && Exact(e.sym, events)
    ensures LedgerExact(ledger[e.sym := events])
    ensures Justified(e.g + {e.sym}, equations[e.sym := e])
  {
    SolvedReady(n, e, ledger);
    hide Exact, Conditional, IsEven, Below, Ready, StraightReady, CompleteRhs, Regular, Justified;
    JustifiedMore(e, equations);
  }

  lemma JustifiedMore(e: Equation, equations: map<Sym, Equation>)
    requires Justified(e.g, equations) && Ready(e) && CompleteRhs(e)
    ensures Justified(e.g + {e.sym}, equations[e.sym := e])
  {
    hide Ready, CompleteRhs;
  }

  class KOrder {
    /** The derivatives of g in the container, and with them those of g* and g**. */
    var g: set<Sym>
    var G: set<Sym>
    /** What has been added to each derivative of G. */
    ghost var ledger: map<Sym, seq<Event>>
    ghost var equations: map<Sym, Equation>

    ghost predicate Valid()
      reads this
    {
      ledger.Keys == G && LedgerExact(ledger) && Justified(g, equations)
    }

    /** Everything up to order n is stored. */
    ghost predicate AtOrder(n: nat)
      reads this
    {
      Reached(g, G, n)
    }

    constructor ()
      ensures Valid() && AtOrder(1)
    {
      var y, u, up := Mk(1, 0, 0, 0), Mk(0, 1, 0, 0), Mk(0, 0, 1, 0);
      g := {y, u};
      G := {y, u, up};
      ghost var first := [AllOrders({y, u})];
      ledger := map[y := first, u := first, up := first];
      equations := map[];
      new;
      FirstOrderState(y, u, up);
      hide Exact, IsEven, Justified, LedgerExact;
      assert ledger.Keys == G;
    }

    /** Inserts the derivative of G by sym, evaluated on the present containers. */
    method InsertG(sym: Sym)
      requires sym !in G && ledger.Keys == G
      modifies this`G, this`ledger
      ensures G == old(G) + {sym} && ledger == old(ledger)[sym := [AllOrders(g)]]
    {
      G := G + {sym};
      ledger := ledger[sym := [AllOrders(g)]];
    }

    /** Inserts the solution of an equation with the given right-hand side. */
    method InsertDerivative(sym: Sym, rhs: multiset<Sym>)
      requires sym !in g
      modifies this`g, this`equations
      ensures g == old(g) + {sym}
      ensures equations == old(equations)[sym := Equation(sym, rhs, old(g), ledger)]
    {
      equations := equations[sym := Equation(sym, rhs, g, ledger)];
      g := g + {sym};
    }

    ghost method Update(sym: Sym, e: Event)
      requires sym in ledger
      modifies this`ledger
      ensures ledger == old(ledger)[sym := old(ledger)[sym] + [e]]
    {
      ledger := ledger[sym := ledger[sym] + [e]];
    }

    method RecoverY(i: nat)
      requires Valid() && i > 1 && Holds(g, G, i, Start)
      modifies this
      ensures Valid() && Holds(g, G, i, Yu(0))
    {
      hide Mk, Holds, Justified, LedgerExact, Exact, IsEven, StraightReady, Below, Regular;
      var sym := Mk(i, 0, 0, 0);
      HoldsBelow(g, G, i, Start);
      ghost var g0, G0, ledger0, equations0 := g, G, ledger, equations;
      YNext(g, G, i, sym);
      ExactAfterMultiply(sym, g);
      InsertG(sym);
      ghost var e := Equation(sym, multiset{sym}, g, ledger);
      InsertDerivative(sym, multiset{sym});
      Update(sym, MultiplyY(1, g));
      Update(sym, MultiplyY(i, g));
      ghost var events := [AllOrders(g0), MultiplyY(1, g), MultiplyY(i, g)];
      assert [AllOrders(g0)] + [MultiplyY(1, g)] + [MultiplyY(i, g)] == events;
      assert ledger == ledger0[sym := events];
      PureRhs(sym);
      SolvedState(i, e, ledger0, equations0, events);
    }

    method RecoverYu(i: nat, j: nat)
      requires Valid() && j > 0 && i + j > 1 && Holds(g, G, i + j, Yu(i))
      modifies this
      ensures Valid() && Holds(g, G, i + j, Yu(i + 1))
    {
      hide Mk, Holds, Justified, LedgerExact, Exact, IsEven, StraightReady, Below, Regular, Conditional;
      var sym := Mk(i, j, 0, 0);
      ghost var n := i + j;
      ghost var g0, G0, ledger0, equations0 := g, G, ledger, equations;
      HoldsBelow(g, G, n, Yu(i));
      YuNext(g, G, n, i, sym);
      ExactAfterUpdates(sym, g);
      InsertG(sym);
      ghost var e := Equation(sym, multiset{sym}, g, ledger);
      InsertDerivative(sym, multiset{sym});
      Update(sym, OneOrder(1, g));
      ghost var events := [AllOrders(g0), OneOrder(1, g)];
      assert [AllOrders(g0)] + [OneOrder(1, g)] == events;
      assert ledger == ledger0[sym := events];
      PureRhs(sym);
      SolvedState(n, e, ledger0, equations0, events);
    }

    /** Inserts the derivatives of G by y^i u^j u'^m with an even number of sigma, for m > 0. */
    method FillG(i: nat, j: nat, k: nat)
      requires Valid() && k > 0 && i + j + k > 1 && Holds(g, G, i + j + k, Main(i, j))
      modifies this`G, this`ledger
      ensures Valid() && Filled(g, G, i + j + k, i, j)
    {
      ghost var n := i + j + k;
      HoldsBelow(g, G, n, Main(i, j));
      var m := 1;
      while m <= k
        invariant 1 <= m <= k + 1
        invariant ledger.Keys == G && LedgerExact(ledger)
        invariant forall c: Sym :: c in G <==> c in old(G) || (IsEven(c.s) && c.y == i && c.u == j && 0 < c.up < m && c.Dim() == n)
      {
        if IsEven(k - m) {
          var sym := Mk(i, j, m, k - m);
          assert sym.y == i && sym.u == j && sym.up == m && sym.Dim() == n && IsEven(sym.s);
          EarlierInSchedule(g, n, i, j, sym);
          ExactWithForwardShock(sym, g);
          hide IsEven, Exact, StraightReady, Below;
          forall c: Sym | c.y == i && c.u == j && c.up == m && c.Dim() == n
            ensures c == sym
          {
            SameFields(c, sym);
          }
          InsertG(sym);
        }
        hide IsEven, Exact, StraightReady, Below;
        m := m + 1;
      }
    }

    /** The derivatives of F that are summed to an equation: by y^i u^j s^k, then those with
        sigma replaced by u' in full, and in part, these as often as the binomial coefficient says. */
    method RightHandSide(i: nat, j: nat, k: nat) returns (rhs: multiset<Sym>)
      requires IsEven(k) && k > 0
      ensures BinomialRhs(Mk(i, j, 0, k), rhs)
    {
      ChooseEnds(k);
      rhs := multiset{Mk(i, j, 0, k)} + multiset{Mk(i, j, k, 0)};
      if k >= 3 {
        var n := 2;
        while n <= k - 1
          invariant IsEven(n) && 2 <= n <= k
          invariant forall z: Sym :: rhs[z] == if Expected(Mk(i, j, 0, k), z) && (z.up < n || z.up == k) then Choose(k, z.up) else 0
        {
          var z := Mk(i, j, n, k - n);
          rhs := rhs[z := rhs[z] + Choose(k, n)];
          n := n + 2;
        }
      }
    }

    /** Solves for the derivative of g by y^i u^j s^k, k even, and completes that of G. */
    method Solve(i: nat, j: nat, k: nat)
      requires Valid() && k > 0 && IsEven(k) && i + j + k > 1 && Filled(g, G, i + j + k, i, j)
      modifies this
      ensures Valid() && Holds(g, G, i + j + k, Main(i, j - 1))
    {
      hide Mk, Filled, Holds, Justified, LedgerExact, Exact, IsEven, StraightReady, Below, Regular, Conditional, BinomialRhs, CompleteRhs, Choose;
      var sym := Mk(i, j, 0, k);
      ghost var n := i + j + k;
      ghost var g0, G0, ledger0, equations0 := g, G, ledger, equations;
      FilledIsBelow(g, G, n, i, j);
      FilledEven(g, G, n, i, j, sym);
      FilledIsReady(g, G, n, i, j, sym);
      ExactAfterUpdates(sym, g);
      InsertG(sym);
      var rhs := RightHandSide(i, j, k);
      ghost var e := Equation(sym, rhs, g, ledger);
      BinomialIsComplete(e);
      InsertDerivative(sym, rhs);
      Update(sym, OneOrder(1, g));
      ghost var events := [AllOrders(g0), OneOrder(1, g)];
      assert [AllOrders(g0)] + [OneOrder(1, g)] == events;
      if j == 0 {
        Update(sym, OneOrder(n, g));
        assert events + [OneOrder(n, g)] == [AllOrders(g0), OneOrder(1, g), OneOrder(n, g)];
        events := [AllOrders(g0), OneOrder(1, g), OneOrder(n, g)];
      }
      assert ledger == ledger0[sym := events];
      SolvedState(n, e, ledger0, equations0, events);
    }

    method RecoverYs(i: nat, j: nat)
      requires Valid() && i > 0 && j > 0 && Holds(g, G, i + j, Main(i, 0))
      modifies this
      ensures Valid() && Holds(g, G, i + j, Main(i, -1))
    {
      hide Filled, Holds, Reached, IsEven, LedgerExact, Justified, Exact;
      FillG(i, 0, j);
      if IsEven(j) {
        Solve(i, 0, j);
      } else {
        FilledOdd(g, G, i + j, i, 0);
      }
    }

    method RecoverYus(i: nat, j: nat, k: nat)
      requires Valid() && j > 0 && k > 0 && Holds(g, G, i + j + k, Main(i, j))
      modifies this
      ensures Valid() && Holds(g, G, i + j + k, Main(i, j - 1))
    {
      hide Filled, Holds, Reached, IsEven, LedgerExact, Justified, Exact;
      FillG(i, j, k);
      if IsEven(k) {
        Solve(i, j, k);
      } else {
        FilledOdd(g, G, i + j + k, i, j);
      }
    }

    method RecoverS(i: nat)
      requires Valid() && i > 1 && Holds(g, G, i, Main(0, 0))
      modifies this
      ensures Valid() && Holds(g, G, i, Main(0, -1))
    {
      hide Filled, Holds, Reached, IsEven, LedgerExact, Justified, Exact;
      FillG(0, 0, i);
      if IsEven(i) {
        Solve(0, 0, i);
      } else {
        FilledOdd(g, G, i, 0, 0);
      }
    }

    /** The highest order of a derivative of g in the container, -1 when there is none. */
    method MaxDim() returns (res: int)
      ensures g == {} ==> res == -1
      ensures g != {} ==> exists c :: c in g && c.Dim() == res
      ensures forall c :: c in g ==> c.Dim() <= res
    {
      res := -1;
      var todo := g;
      while todo != {}
        invariant todo <= g
        invariant forall c :: c in g && c !in todo ==> c.Dim() <= res
        invariant res == -1 <==> todo == g
        invariant res != -1 ==> exists c :: c in g && c.Dim() == res
        decreases todo
      {
        var c :| c in todo;
        todo := todo - {c};
        if c.Dim() > res { res := c.Dim(); }
      }
    }

    /** One step: refuses an order that is not the next one, otherwise stores everything of that order. */
    method PerformStep(order: nat, ghost n: nat) returns (ok: bool)
      requires Valid() && n >= 1 && AtOrder(n)
      modifies this
      ensures Valid()
      ensures ok <==> order == n + 1
      ensures AtOrder(if ok then order else n)
    {
      hide Filled, Holds, Reached, IsEven, LedgerExact, Justified, Exact;
      var maxDim := MaxDim();
      TopOrder(g, G, n);
      if order - 1 != maxDim {
        return false;
      }
      ok := true;
      ReachedIsStart(g, G, n);
      RecoverY(order);
      var i := 0;
      while i < order
        invariant 0 <= i <= order
        invariant Valid() && Holds(g, G, order, Yu(i))
      {
        RecoverYu(i, order - i);
        i := i + 1;
      }
      YuComplete(g, G, order);
      var j := 1;
      while j < order
        invariant 1 <= j <= order
        invariant Valid() && Holds(g, G, order, Main(order - j, j - 1))
      {
        i := j - 1;
        while i >= 1
          invariant 0 <= i <= j - 1
          invariant Valid() && Holds(g, G, order, Main(order - j, i))
        {
          RecoverYus(order - j, i, j - i);
          i := i - 1;
        }
        RecoverYs(order - j, j);
        RowComplete(g, G, order, order - j);
        j := j + 1;
      }
      i := order - 1;
      while i >= 1
        invariant 0 <= i <= order - 1
        invariant Valid() && Holds(g, G, order, Main(0, i))
      {
        RecoverYus(0, i, order - i);
        i := i - 1;
      }
      RecoverS(order);
      LastPhaseReaches(g, G, order);
    }

    /** The whole run of an approximation of the given order. */
    static method Approximate(order: nat) returns (korder: KOrder)
      requires order >= 2
      ensures fresh(korder) && korder.Valid() && korder.AtOrder(order)
    {
      korder := new KOrder();
      var k := 2;
      while k <= order
        invariant 2 <= k <= order + 1
        invariant fresh(korder) && korder.Valid() && korder.AtOrder(k - 1)
      {
        var ok := korder.PerformStep(k, k - 1);
        k := k + 1;
      }
    }
  }

  lemma TopOrder(g: set<Sym>, G: set<Sym>, n: nat)
    requires n >= 1 && Reached(g, G, n)
    ensures exists c :: c in g && c.Dim() == n
    ensures forall c :: c in g ==> c.Dim() <= n
  {
    assert IsEven(0);
    hide IsEven;
    var c := Mk(n, 0, 0, 0);
    assert c.y == n && c.u == 0 && c.up == 0 && c.s == 0;
    assert c in g && c.Dim() == n;
  }

  /** Without sigma the right-hand side has one derivative of F. */
  lemma PureRhs(sym: Sym)
    requires sym.up == 0 && sym.s == 0
    ensures forall g, ledger :: CompleteRhs(Equation(sym, multiset{sym}, g, ledger))
  {
    assert IsEven(0);
    hide IsEven;
    assert forall z: Sym :: Expected(sym, z) ==> z == sym;
    forall g, ledger
      ensures CompleteRhs(Equation(sym, multiset{sym}, g, ledger))
    {
      BinomialIsComplete(Equation(sym, multiset{sym}, g, ledger));
    }
  }

  lemma FirstOrderSymmetries(y: Sym, u: Sym, up: Sym, c: Sym)
    requires IsY(y) && IsU(u) && IsUp(up) && c.Dim() == 1
    ensures IsEven(c.s) <==> c == y || c == u || c == up
    ensures Regular(c) <==> c == y || c == u
  {
    assert IsEven(0) && !IsEven(1);
    hide IsEven;
    if c.y == 1 {
      SameFields(c, y);
    } else if c.u == 1 {
      SameFields(c, u);
    } else if c.up == 1 {
      SameFields(c, up);
    } else {
      assert c.s == 1 && y.s == 0 && u.s == 0 && up.s == 0;
    }
  }

  lemma FirstOrderState(y: Sym, u: Sym, up: Sym)
    requires IsY(y) && IsU(u) && IsUp(up)
    ensures var first := [AllOrders({y, u})];
            LedgerExact(map[y := first, u := first, up := first]) && Justified({y, u}, map[])
    ensures forall c: Sym :: c in {y, u} <==> Regular(c) && c.Dim() <= 1
    ensures forall c: Sym :: c in {y, u, up} <==> 0 < c.Dim() <= 1 && IsEven(c.s)
  {
    hide IsEven;
    forall c: Sym
      ensures c in {y, u} <==> Regular(c) && c.Dim() <= 1
      ensures c in {y, u, up} <==> 0 < c.Dim() <= 1 && IsEven(c.s)
    {
      if c.Dim() == 1 { FirstOrderSymmetries(y, u, up, c); }
    }
    forall c: Sym
      ensures c in {y, u} <==> IsY(c) || IsU(c)
    {
      if IsY(c) { SameFields(c, y); }
      if IsU(c) { SameFields(c, u); }
    }
    FirstOrder({y, u}, y);
    FirstOrder({y, u}, u);
    FirstOrder({y, u}, up);
  }

  lemma SameFields(a: Sym, b: Sym)
    requires a.y == b.y && a.u == b.u && a.up == b.up && a.s == b.s
    ensures a == b
  {}

  /** The first-order derivatives of G are complete from the start. */
  lemma FirstOrder(g: set<Sym>, c: Sym)
    requires forall x: Sym :: x in g <==> IsY(x) || IsU(x)
    requires IsY(c) || IsU(c) || IsUp(c)
    ensures Exact(c, [AllOrders(g)])
  {
    hide IsTerm, Times, Nonzero, Adds;
    forall t: Term | IsTerm(c, t)
      ensures Times([AllOrders(g)], t) == if Nonzero(t) then 1 else 0
    {
      FirstOrderTerm(g, c, t);
    }
  }

  lemma FirstOrderTerm(g: set<Sym>, c: Sym, t: Term)
    requires forall x: Sym :: x in g <==> IsY(x) || IsU(x)
    requires (IsY(c) || IsU(c) || IsUp(c)) && IsTerm(c, t)
    ensures Times([AllOrders(g)], t) == if Nonzero(t) then 1 else 0
  {
    hide Times, IsTerm, Needs;
    FirstOrderNeeds(c, t);
    ThreeTimes(AllOrders(g), AllOrders(g), AllOrders(g), t);
  }

  lemma SingleTerm(c: Sym, t: Term)
    requires IsTerm(c, t) && c.Dim() == 1
    ensures t == [c]
  {
    TotalBounds(t);
    OneClass(c, t);
  }

  lemma FirstOrderNeeds(c: Sym, t: Term)
    requires (IsY(c) || IsU(c) || IsUp(c)) && IsTerm(c, t)
    ensures forall x: Sym :: Needs(t, x) ==> IsY(x) || IsU(x)
  {
    hide IsTerm;
    SingleTerm(c, t);
    CountSingletons(t);
  }
}
