/** What the terms of the planner's first-order conditions stand for. */
module PlannerMeaning {
  import opened Wrappers
  import opened Reals
  import opened Jets
  import opened Terms
  import opened ModelMeaning
  import opened LagElimination
  import opened ModelSteps
  import opened ForwardMeaning

  /** Formulas over time, as they are written on paper: derivatives of terms of the original model,
      variables at some lead, a parameter, shifts in time, and arithmetic. */
  datatype Spec =
    | Value(v: real)
    | Derivative(u: nat, t: nat)
    | Variable(name: string, ll: int)
    | Parameter(name: string)
    | Shift(g: Spec, d: int)
    | Product(g1: Spec, g2: Spec)
    | Quotient(g1: Spec, g2: Spec)
    | Plus(g1: Spec, g2: Spec)

  function Times2(a: Option<real>, b: Option<real>): Option<real> {
    if a.Some? && b.Some? then Some(Mul(a.value, b.value)) else None
  }

  function Over(a: Option<real>, b: Option<real>): Option<real> {
    if a.Some? && b.Some? && b.value != 0.0 then Some(Div(a.value, b.value)) else None
  }

  function Add2(a: Option<real>, b: Option<real>): Option<real> {
    if a.Some? && b.Some? then Some(a.value + b.value) else None
  }

  /** The value of a formula at time s, over the terms of the original model. */
  ghost function Denote(F: Funs, m0: Model, g: Spec, path: Path, s: int): Option<real>
    requires IsModel(m0)
  {
    match g
    case Value(v) => Some(v)
    case Derivative(u, t) => if t < |m0.terms| then Deriv(F, m0.terms, PointAt(m0, path, s), u, t).x else None
    case Variable(name, ll) => Some(path(name, s + ll))
    case Parameter(name) => Some(path(name, 0))
    case Shift(h, d) => Denote(F, m0, h, path, s + d)
    case Product(a, b) => Times2(Denote(F, m0, a, path, s), Denote(F, m0, b, path, s))
    case Quotient(a, b) => Over(Denote(F, m0, a, path, s), Denote(F, m0, b, path, s))
    case Plus(a, b) => Add2(Denote(F, m0, a, path, s), Denote(F, m0, b, path, s))
  }

  ghost predicate MeansAt(F: Funs, m0: Model, m: Model, t: nat, g: Spec, path: Path, s: int)
    requires IsModel(m0) && IsModel(m) && t < |m.terms|
  {
    Denote(F, m0, g, path, s).Some? ==> TermValue(F, m, path, s, t) == Denote(F, m0, g, path, s)
  }

  /** The term has the value of the formula wherever the formula has one. */
  ghost predicate Means(m0: Model, m: Model, t: nat, g: Spec) {
    && IsModel(m0) && IsModel(m) && t < |m.terms|
    && forall F: Funs, path: Path, s: int :: Lawful(F) ==> MeansAt(F, m0, m, t, g, path, s)
  }

  lemma MeansGrows(m0: Model, m: Model, m': Model, t: nat, g: Spec)
    requires Means(m0, m, t, g) && IsModel(m') && GrowsTo(m, m')
    ensures Means(m0, m', t, g)
  {
    hide Denote, TermValue, IsModel;
    GrownSize(m, m');
    forall F: Funs, path: Path, s: int | Lawful(F)
      ensures MeansAt(F, m0, m', t, g, path, s)
    {
      assert MeansAt(F, m0, m, t, g, path, s);
      GrownValue(F, m, m', path, s, t);
    }
  }

  lemma GrownSize(m: Model, m': Model)
    requires GrowsTo(m, m')
    ensures |m.terms| <= |m'.terms|
  {
  }

  lemma ConstantValue(F: Funs, m: Model, path: Path, s: int)
    requires IsModel(m)
    ensures TermValue(F, m, path, s, ZERO) == Some(0.0) && TermValue(F, m, path, s, ONE) == Some(1.0)
  {
  }

  /** Zero keeps meaning a formula when it is shifted or multiplied. */
  lemma ZeroStays(m0: Model, m: Model, g: Spec, d: int, h: Spec)
    requires Means(m0, m, ZERO, g)
    ensures Means(m0, m, ZERO, Shift(g, d)) && Means(m0, m, ZERO, Product(h, g))
  {
    hide TermValue, IsModel, Mul;
    forall F: Funs, path: Path, s: int | Lawful(F)
      ensures MeansAt(F, m0, m, ZERO, Shift(g, d), path, s) && MeansAt(F, m0, m, ZERO, Product(h, g), path, s)
    {
      assert MeansAt(F, m0, m, ZERO, g, path, s + d) && MeansAt(F, m0, m, ZERO, g, path, s);
      ConstantValue(F, m, path, s + d);
      ConstantValue(F, m, path, s);
      if Denote(F, m0, h, path, s).Some? { MulUnits(Denote(F, m0, h, path, s).value); }
    }
  }

  /** The value of a term built by an operation, when its operands have values. */
  lemma BuiltValue(F: Funs, m: Model, code: BinaryCode, a: nat, b: nat, r: nat, path: Path, s: int)
    requires Lawful(F) && IsModel(m) && a < |m.terms| && b < |m.terms| && r < |m.terms| && IsBinary(m.terms, code, a, b, r)
    requires TermValue(F, m, path, s, a).Some? && TermValue(F, m, path, s, b).Some?
    requires BinaryValue(F, code, TermValue(F, m, path, s, a).value, TermValue(F, m, path, s, b).value).Some?
    ensures TermValue(F, m, path, s, r) == BinaryValue(F, code, TermValue(F, m, path, s, a).value, TermValue(F, m, path, s, b).value)
  {
    var p := PointAt(m, path, s);
    var e := B(code, Of(a), Of(b));
    assert Refines(ExprJet(F, m.terms, p, 0, e), Eval(F, m.terms, p, r));
    assert ExprJet(F, m.terms, p, 0, e.e1) == Eval(F, m.terms, p, a);
    assert ExprJet(F, m.terms, p, 0, e.e2) == Eval(F, m.terms, p, b);
  }

  lemma MeansProduct(m0: Model, m: Model, a: nat, b: nat, r: nat, g: Spec, h: Spec)
    requires Means(m0, m, a, g) && Means(m0, m, b, h) && r < |m.terms| && IsBinary(m.terms, TIMES, a, b, r)
    ensures Means(m0, m, r, Product(g, h))
  {
    hide TermValue, IsModel, IsBinary, Denote, MeansAt;
    forall F: Funs, path: Path, s: int | Lawful(F)
      ensures MeansAt(F, m0, m, r, Product(g, h), path, s)
    {
      assert MeansAt(F, m0, m, a, g, path, s) && MeansAt(F, m0, m, b, h, path, s);
      ProductAt(F, m0, m, a, b, r, g, h, path, s);
    }
  }

  lemma ProductAt(F: Funs, m0: Model, m: Model, a: nat, b: nat, r: nat, g: Spec, h: Spec, path: Path, s: int)
    requires Lawful(F) && IsModel(m0) && IsModel(m) && a < |m.terms| && b < |m.terms| && r < |m.terms| && IsBinary(m.terms, TIMES, a, b, r)
    requires MeansAt(F, m0, m, a, g, path, s) && MeansAt(F, m0, m, b, h, path, s)
    ensures MeansAt(F, m0, m, r, Product(g, h), path, s)
  {
    hide TermValue, IsModel, IsBinary, Mul;
    if Denote(F, m0, Product(g, h), path, s).Some? { BuiltValue(F, m, TIMES, a, b, r, path, s); }
  }

  lemma MeansQuotient(m0: Model, m: Model, a: nat, b: nat, r: nat, g: Spec, h: Spec)
    requires Means(m0, m, a, g) && Means(m0, m, b, h) && r < |m.terms| && IsBinary(m.terms, DIVIDE, a, b, r)
    ensures Means(m0, m, r, Quotient(g, h))
  {
    hide TermValue, IsModel, IsBinary, Denote, MeansAt;
    forall F: Funs, path: Path, s: int | Lawful(F)
      ensures MeansAt(F, m0, m, r, Quotient(g, h), path, s)
    {
      assert MeansAt(F, m0, m, a, g, path, s) && MeansAt(F, m0, m, b, h, path, s);
      QuotientAt(F, m0, m, a, b, r, g, h, path, s);
    }
  }

  lemma QuotientAt(F: Funs, m0: Model, m: Model, a: nat, b: nat, r: nat, g: Spec, h: Spec, path: Path, s: int)
    requires Lawful(F) && IsModel(m0) && IsModel(m) && a < |m.terms| && b < |m.terms| && r < |m.terms| && IsBinary(m.terms, DIVIDE, a, b, r)
    requires MeansAt(F, m0, m, a, g, path, s) && MeansAt(F, m0, m, b, h, path, s)
    ensures MeansAt(F, m0, m, r, Quotient(g, h), path, s)
  {
    hide TermValue, IsModel, IsBinary, Div;
    if Denote(F, m0, Quotient(g, h), path, s).Some? { BuiltValue(F, m, DIVIDE, a, b, r, path, s); }
  }

  lemma MeansPlus(m0: Model, m: Model, a: nat, b: nat, r: nat, g: Spec, h: Spec)
    requires Means(m0, m, a, g) && Means(m0, m, b, h) && r < |m.terms| && IsBinary(m.terms, PLUS, a, b, r)
    ensures Means(m0, m, r, Plus(g, h))
  {
    hide TermValue, IsModel, IsBinary, Denote, MeansAt;
    forall F: Funs, path: Path, s: int | Lawful(F)
      ensures MeansAt(F, m0, m, r, Plus(g, h), path, s)
    {
      assert MeansAt(F, m0, m, a, g, path, s) && MeansAt(F, m0, m, b, h, path, s);
      PlusAt(F, m0, m, a, b, r, g, h, path, s);
    }
  }

  lemma PlusAt(F: Funs, m0: Model, m: Model, a: nat, b: nat, r: nat, g: Spec, h: Spec, path: Path, s: int)
    requires Lawful(F) && IsModel(m0) && IsModel(m) && a < |m.terms| && b < |m.terms| && r < |m.terms| && IsBinary(m.terms, PLUS, a, b, r)
    requires MeansAt(F, m0, m, a, g, path, s) && MeansAt(F, m0, m, b, h, path, s)
    ensures MeansAt(F, m0, m, r, Plus(g, h), path, s)
  {
    hide TermValue, IsModel, IsBinary;
    if Denote(F, m0, Plus(g, h), path, s).Some? { BuiltValue(F, m, PLUS, a, b, r, path, s); }
  }

  /** A term whose value is the value of t at another time. */
  lemma MeansShift(m0: Model, m: Model, t: nat, r: nat, g: Spec, d: int)
    requires Means(m0, m, t, g) && r < |m.terms| && ShiftsExactly(m, t, r, d)
    ensures Means(m0, m, r, Shift(g, d))
  {
    hide TermValue, IsModel;
    forall F: Funs, path: Path, s: int | Lawful(F)
      ensures MeansAt(F, m0, m, r, Shift(g, d), path, s)
    {
      assert MeansAt(F, m0, m, t, g, path, s + d);
      assert ShiftedAt(F, m, t, r, d, path, s);
    }
  }

  /** The leaf of a variable. */
  lemma MeansLeaf(m0: Model, m: Model, t: nat)
    requires IsModel(m0) && IsModel(m) && t in m.atoms
    ensures t < |m.terms|
    ensures m.atoms[t].name !in m.params ==> Means(m0, m, t, Variable(m.atoms[t].name, m.atoms[t].ll))
    ensures m.atoms[t].name in m.params ==> Means(m0, m, t, Parameter(m.atoms[t].name))
  {
    assert IsLeaf(m.terms, t);
    forall F: Funs, path: Path, s: int | Lawful(F)
      ensures TermValue(F, m, path, s, t) == Some(AtomValue(path, m.params, m.atoms[t], s))
    {
      LeafEval(F, m, path, s, t);
    }
    hide TermValue;
    if m.atoms[t].name !in m.params {
      forall F: Funs, path: Path, s: int | Lawful(F)
        ensures MeansAt(F, m0, m, t, Variable(m.atoms[t].name, m.atoms[t].ll), path, s)
      {
        assert TermValue(F, m, path, s, t) == Some(AtomValue(path, m.params, m.atoms[t], s));
      }
    } else {
      forall F: Funs, path: Path, s: int | Lawful(F)
        ensures MeansAt(F, m0, m, t, Parameter(m.atoms[t].name), path, s)
      {
        assert TermValue(F, m, path, s, t) == Some(AtomValue(path, m.params, m.atoms[t], s));
      }
    }
  }

  lemma MeansConstants(m0: Model, m: Model)
    requires IsModel(m0) && IsModel(m)
    ensures Means(m0, m, ZERO, Value(0.0)) && Means(m0, m, ONE, Value(1.0))
  {
    hide TermValue, IsModel;
    MeansConstant(m0, m, ZERO, 0.0);
    MeansConstant(m0, m, ONE, 1.0);
  }

  lemma MeansConstant(m0: Model, m: Model, t: nat, v: real)
    requires IsModel(m0) && IsModel(m) && ((t == ZERO && v == 0.0) || (t == ONE && v == 1.0))
    ensures Means(m0, m, t, Value(v))
  {
    forall F: Funs, path: Path, s: int | Lawful(F)
      ensures MeansAt(F, m0, m, t, Value(v), path, s)
    {
      ConstantValue(F, m, path, s);
    }
  }

  /** A built derivative, over a tree that has grown by derivatives only. */
  lemma MeansDerivative(m0: Model, m: Model, u: nat, t: nat, r: nat)
    requires IsModel(m0) && IsModel(m) && m0.terms <= m.terms && m.atoms == m0.atoms && m.consts == m0.consts && m.params == m0.params
    requires t < |m0.terms| && Represents(m.terms, u, By(t), r)
    ensures Means(m0, m, r, Derivative(u, t))
  {
    forall F: Funs, path: Path, s: int | Lawful(F)
      ensures MeansAt(F, m0, m, r, Derivative(u, t), path, s)
    {
      var p := PointAt(m, path, s);
      assert p == PointAt(m0, path, s);
      DerivGrows(F, m0.terms, m.terms, p, u, t);
      assert Refines(ExprJet(F, m.terms, p, u, By(t)), Eval(F, m.terms, p, r));
    }
  }

  // ----- powers of the discount factor -----

  /** beta to the power of -ll: products for lags, quotients for leads. */
  function Discount(beta: string, ll: int): Spec
    decreases if ll < 0 then -ll else ll
  {
    if ll == 0 then Value(1.0)
    else if ll < 0 then Product(Discount(beta, ll + 1), Parameter(beta))
    else Quotient(Discount(beta, ll - 1), Parameter(beta))
  }

  /** The discount really is a power: for lags beta to the -ll, and for leads its product with beta to the ll is one. */
  lemma {:induction false} DiscountIsPower(F: Funs, m0: Model, beta: string, ll: int, path: Path, s: int)
    requires IsModel(m0)
    ensures ll <= 0 ==> Denote(F, m0, Discount(beta, ll), path, s) == Some(RealPower(path(beta, 0), -ll))
    ensures ll > 0 ==> (Denote(F, m0, Discount(beta, ll), path, s).Some? <==> path(beta, 0) != 0.0)
    ensures ll > 0 && path(beta, 0) != 0.0 ==> Mul(Denote(F, m0, Discount(beta, ll), path, s).value, RealPower(path(beta, 0), ll)) == 1.0
    decreases if ll < 0 then -ll else ll
  {
    hide Mul, Div, IsModel;
    var b := path(beta, 0);
    if ll < 0 {
      DiscountIsPower(F, m0, beta, ll + 1, path, s);
      MulCommutes(RealPower(b, -ll - 1), b);
    } else if ll > 0 {
      DiscountIsPower(F, m0, beta, ll - 1, path, s);
      if b != 0.0 {
        var before := Denote(F, m0, Discount(beta, ll - 1), path, s).value;
        MulUnits(before);
        QuotientTimes(before, b, RealPower(b, ll - 1));
        MulCommutes(RealPower(b, ll - 1), b);
        assert RealPower(b, 0) == 1.0;
      }
    } else {
      assert Discount(beta, 0) == Value(1.0);
    }
  }

  lemma QuotientTimes(x: real, b: real, p: real)
    requires b != 0.0
    ensures Mul(Div(x, b), Mul(p, b)) == Mul(x, p)
  {
    hide Mul, Div;
    DivByIt(x, b);
    MulCommutes(p, b);
    MulAssociates(Div(x, b), b, p);
  }

  lemma DivByIt(x: real, b: real)
    requires b != 0.0
    ensures Mul(Div(x, b), b) == x
  {
  }

  /** Multiplying by one a second time changes nothing. */
  lemma OnceMore(m0: Model, m: Model, t: nat, g: Spec)
    requires Means(m0, m, t, Product(Value(1.0), Product(Value(1.0), g)))
    ensures Means(m0, m, t, Product(Value(1.0), g))
  {
    hide TermValue, IsModel, Mul;
    forall F: Funs, path: Path, s: int | Lawful(F)
      ensures MeansAt(F, m0, m, t, Product(Value(1.0), g), path, s)
    {
      assert MeansAt(F, m0, m, t, Product(Value(1.0), Product(Value(1.0), g)), path, s);
      if Denote(F, m0, g, path, s).Some? {
        var v := Denote(F, m0, g, path, s).value;
        MulUnits(v);
        assert Denote(F, m0, Product(Value(1.0), g), path, s) == Some(Mul(1.0, v));
        assert Denote(F, m0, Product(Value(1.0), Product(Value(1.0), g)), path, s) == Some(Mul(1.0, Mul(1.0, v)));
      }
    }
  }

  lemma ShiftByNothing(m0: Model, m: Model, t: nat, g: Spec)
    requires Means(m0, m, t, g)
    ensures Means(m0, m, t, Shift(g, 0))
  {
    hide TermValue, IsModel;
    forall F: Funs, path: Path, s: int | Lawful(F)
      ensures MeansAt(F, m0, m, t, Shift(g, 0), path, s)
    {
      assert MeansAt(F, m0, m, t, g, path, s);
      assert s + 0 == s;
    }
  }
}
