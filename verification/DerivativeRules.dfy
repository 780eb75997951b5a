/** The differentiation rules as expressions over the terms of a tree, and the two
    shortcuts of differentiation: absent leaves and constant denominators. */
module DerivativeRules {
  import opened Wrappers
  import opened Jets
  import opened Terms

  /** The derivative of term t, which is the operation op, as a user would write it. */
  function Rule(op: Operation, t: nat): Expr
    requires op != Nulary
  {
    match op
    case Unary(c, a) => (
      match c
      case UMINUS => U(UMINUS, By(a))
      case LOG => B(DIVIDE, By(a), Of(a))
      case EXP => B(TIMES, Of(t), By(a))
      case SIN => B(TIMES, U(COS, Of(a)), By(a))
      case COS => U(UMINUS, B(TIMES, U(SIN, Of(a)), By(a)))
      case TAN => B(DIVIDE, By(a), B(TIMES, U(COS, Of(a)), U(COS, Of(a))))
      case SQRT => B(DIVIDE, By(a), B(PLUS, Of(t), Of(t)))
      case ERF => B(TIMES, Of(TWO_OVER_PI), Bell(a))
      case ERFC => U(UMINUS, B(TIMES, Of(TWO_OVER_PI), Bell(a)))
    )
    case Binary(c, a, b) => (
      match c
      case PLUS => B(PLUS, By(a), By(b))
      case MINUS => B(MINUS, By(a), By(b))
      case TIMES => B(PLUS, B(TIMES, Of(a), By(b)), B(TIMES, By(a), Of(b)))
      case DIVIDE => Quotient(a, b)
      case POWER => B(PLUS, ExponentPart(t, a, b), BasePart(a, b))
    )
  }

  function Quotient(a: nat, b: nat): Expr {
    B(DIVIDE, B(MINUS, B(TIMES, By(a), Of(b)), B(TIMES, By(b), Of(a))), B(TIMES, Of(b), Of(b)))
  }

  function ExponentPart(t: nat, a: nat, b: nat): Expr {
    B(TIMES, By(b), B(TIMES, Of(t), U(LOG, Of(a))))
  }

  function BasePart(a: nat, b: nat): Expr {
    B(TIMES, By(a), B(TIMES, Of(b), B(POWER, Of(a), B(MINUS, Of(b), Of(ONE)))))
  }

  function Bell(a: nat): Expr {
    B(TIMES, U(EXP, U(UMINUS, B(TIMES, Of(a), Of(a)))), By(a))
  }

  /** A term that represents the rule of t represents the derivative of t. */
  lemma RuleIsDerivative(terms: seq<Operation>, u: nat, t: nat, r: nat)
    requires WellFormed(terms) && t < |terms| && terms[t] != Nulary
    requires Represents(terms, u, Rule(terms[t], t), r)
    ensures Represents(terms, u, By(t), r)
  {
    assert OperandsBelow(terms[t], t);
    forall F: Funs, p: Point | Lawful(F)
      ensures Refines(ExprJet(F, terms, p, u, By(t)), Eval(F, terms, p, r))
    {
      RuleJet(F, terms, p, u, t);
      assert Refines(ExprJet(F, terms, p, u, Rule(terms[t], t)), Eval(F, terms, p, r));
    }
  }

  lemma RuleJet(F: Funs, terms: seq<Operation>, p: Point, u: nat, t: nat)
    requires WellFormed(terms) && t < |terms| && terms[t] != Nulary
    ensures ExprJet(F, terms, p, u, Rule(terms[t], t)) == Deriv(F, terms, p, u, t)
  {
    hide JetUnary, JetBinary;
    assert OperandsBelow(terms[t], t);
    match terms[t]
    case Unary(c, a) => UnaryRuleJet(F, terms, p, u, c, a, t);
    case Binary(c, a, b) => BinaryRuleJet(F, terms, p, u, c, a, b, t);
  }

  lemma BinaryRuleJet(F: Funs, terms: seq<Operation>, p: Point, u: nat, c: BinaryCode, a: nat, b: nat, t: nat)
    requires WellFormed(terms) && t < |terms| && a < |terms| && b < |terms|
    ensures ExprJet(F, terms, p, u, Rule(Binary(c, a, b), t))
         == DerivBinary(F, c, Eval(F, terms, p, t), Eval(F, terms, p, a), Deriv(F, terms, p, u, a),
                        Eval(F, terms, p, b), Deriv(F, terms, p, u, b))
  {
    hide JetUnary, JetBinary;
    UnfoldExpr(F, terms, p, u);
  }

  lemma UnaryRuleJet(F: Funs, terms: seq<Operation>, p: Point, u: nat, c: UnaryCode, a: nat, t: nat)
    requires WellFormed(terms) && t < |terms| && a < |terms|
    ensures ExprJet(F, terms, p, u, Rule(Unary(c, a), t))
         == DerivUnary(F, c, Eval(F, terms, p, t), Eval(F, terms, p, a), Deriv(F, terms, p, u, a))
  {
    hide JetUnary, JetBinary;
    UnfoldExpr(F, terms, p, u);
  }

  /** The meaning of a compound expression, for expressions of any depth. */
  lemma UnfoldExpr(F: Funs, terms: seq<Operation>, p: Point, u: nat)
    requires WellFormed(terms)
    ensures forall c: UnaryCode, e: Expr {:trigger U(c, e)} ::
              ExprJet(F, terms, p, u, U(c, e)) == JetUnary(F, c, ExprJet(F, terms, p, u, e))
    ensures forall c: BinaryCode, e1: Expr, e2: Expr {:trigger B(c, e1, e2)} ::
              ExprJet(F, terms, p, u, B(c, e1, e2)) ==
              JetBinary(F, c, ExprJet(F, terms, p, u, e1), ExprJet(F, terms, p, u, e2))
    ensures forall t: nat {:trigger Of(t)} :: t < |terms| ==> ExprJet(F, terms, p, u, Of(t)) == Eval(F, terms, p, t)
    ensures forall t: nat {:trigger By(t)} :: t < |terms| ==> ExprJet(F, terms, p, u, By(t)) == Deriv(F, terms, p, u, t)
  {}

  /** A derivative that is zero in its operands is zero. */
  lemma RuleOfZero(F: Funs, t: Jet, x: Jet, y: Jet)
    ensures forall c: UnaryCode :: Refines(DerivUnary(F, c, t, x, JET_ZERO), JET_ZERO)
    ensures forall c: BinaryCode :: Refines(DerivBinary(F, c, t, x, JET_ZERO, y, JET_ZERO), JET_ZERO)
  {
    forall j: Jet
      ensures Refines(JetBinary(F, TIMES, j, JET_ZERO), JET_ZERO)
      ensures Refines(JetBinary(F, TIMES, JET_ZERO, j), JET_ZERO)
      ensures Refines(JetBinary(F, DIVIDE, JET_ZERO, j), JET_ZERO)
    {
      DivideZero(F, j);
    }
    assert JetUnary(F, UMINUS, JET_ZERO) == JET_ZERO;
    assert JetBinary(F, PLUS, JET_ZERO, JET_ZERO) == JET_ZERO;
    forall c: UnaryCode
      ensures Refines(DerivUnary(F, c, t, x, JET_ZERO), JET_ZERO)
    {
      forall j: Jet | Refines(j, JET_ZERO)
        ensures Refines(JetUnary(F, UMINUS, j), JET_ZERO)
        ensures Refines(JetBinary(F, TIMES, Jet(Some(F.twoOverPi), Some(0.0)), j), JET_ZERO)
      {
        JetUnaryMonotone(F, UMINUS, j, JET_ZERO);
        JetBinaryMonotone(F, TIMES, Jet(Some(F.twoOverPi), Some(0.0)), Jet(Some(F.twoOverPi), Some(0.0)), j, JET_ZERO);
      }
    }
    forall c: BinaryCode
      ensures Refines(DerivBinary(F, c, t, x, JET_ZERO, y, JET_ZERO), JET_ZERO)
    {
      forall j: Jet, k: Jet | Refines(j, JET_ZERO) && Refines(k, JET_ZERO)
        ensures Refines(JetBinary(F, PLUS, j, k), JET_ZERO)
        ensures Refines(JetBinary(F, MINUS, j, k), JET_ZERO)
      {
        JetBinaryMonotone(F, PLUS, j, JET_ZERO, k, JET_ZERO);
        JetBinaryMonotone(F, MINUS, j, JET_ZERO, k, JET_ZERO);
      }
      forall j: Jet | Refines(j, JET_ZERO)
        ensures Refines(JetBinary(F, DIVIDE, j, JetBinary(F, TIMES, y, y)), JET_ZERO)
      {
        var yy := JetBinary(F, TIMES, y, y);
        JetBinaryMonotone(F, DIVIDE, j, JET_ZERO, yy, yy);
      }
    }
  }

  lemma DerivMonotone(F: Funs, t: Jet, x: Jet, dx: Jet, dx': Jet, y: Jet, dy: Jet, dy': Jet)
    requires Refines(dx, dx') && Refines(dy, dy')
    ensures forall c: UnaryCode :: Refines(DerivUnary(F, c, t, x, dx), DerivUnary(F, c, t, x, dx'))
    ensures forall c: BinaryCode :: Refines(DerivBinary(F, c, t, x, dx, y, dy), DerivBinary(F, c, t, x, dx', y, dy'))
  {
    forall c: UnaryCode, j: Jet, j': Jet | Refines(j, j')
      ensures Refines(JetUnary(F, c, j), JetUnary(F, c, j'))
    {
      JetUnaryMonotone(F, c, j, j');
    }
    forall c: BinaryCode, j: Jet, j': Jet, k: Jet, k': Jet | Refines(j, j') && Refines(k, k')
      ensures Refines(JetBinary(F, c, j, k), JetBinary(F, c, j', k'))
    {
      JetBinaryMonotone(F, c, j, j', k, k');
    }
  }

  /** The derivative with respect to a leaf that does not occur is zero. */
  lemma {:induction false} AbsentLeaf(F: Funs, terms: seq<Operation>, p: Point, u: nat, t: nat)
    requires WellFormed(terms) && t < |terms| && u !in Leaves(terms, t)
    ensures Refines(Deriv(F, terms, p, u, t), JET_ZERO)
    decreases t
  {
    assert OperandsBelow(terms[t], t);
    var T := Eval(F, terms, p, t);
    match terms[t]
    case Nulary =>
    case Unary(c, a) =>
      AbsentLeaf(F, terms, p, u, a);
      var x, dx := Eval(F, terms, p, a), Deriv(F, terms, p, u, a);
      RuleOfZero(F, T, x, x);
      DerivMonotone(F, T, x, dx, JET_ZERO, x, dx, JET_ZERO);
      RefinesTrans(DerivUnary(F, c, T, x, dx), DerivUnary(F, c, T, x, JET_ZERO), JET_ZERO);
    case Binary(c, a, b) =>
      AbsentLeaf(F, terms, p, u, a);
      AbsentLeaf(F, terms, p, u, b);
      var x, dx := Eval(F, terms, p, a), Deriv(F, terms, p, u, a);
      var y, dy := Eval(F, terms, p, b), Deriv(F, terms, p, u, b);
      RuleOfZero(F, T, x, y);
      DerivMonotone(F, T, x, dx, JET_ZERO, y, dy, JET_ZERO);
      RefinesTrans(DerivBinary(F, c, T, x, dx, y, dy), DerivBinary(F, c, T, x, JET_ZERO, y, JET_ZERO), JET_ZERO);
  }

  lemma RefinesTrans(a: Jet, b: Jet, c: Jet)
    requires Refines(a, b) && Refines(b, c)
    ensures Refines(a, c)
  {}

  lemma ZeroIsDerivative(terms: seq<Operation>, u: nat, t: nat)
    requires WellFormed(terms) && t < |terms| && u !in Leaves(terms, t)
    ensures Represents(terms, u, By(t), ZERO)
  {
    forall F: Funs, p: Point | Lawful(F)
      ensures Refines(ExprJet(F, terms, p, u, By(t)), Eval(F, terms, p, ZERO))
    {
      AbsentLeaf(F, terms, p, u, t);
    }
  }

  /** With a constant denominator the quotient rule shrinks to dividing the derivative. */
  lemma ConstantDenominator(terms: seq<Operation>, u: nat, t: nat, r: nat)
    requires WellFormed(terms) && t < |terms| && terms[t].Binary? && terms[t].bcode == DIVIDE
    requires terms[t].op1 < t && terms[t].op2 < t
    requires Represents(terms, u, By(terms[t].op2), ZERO)
    requires Represents(terms, u, B(DIVIDE, By(terms[t].op1), Of(terms[t].op2)), r)
    ensures Represents(terms, u, By(t), r)
  {
    var a, b := terms[t].op1, terms[t].op2;
    forall F: Funs, p: Point | Lawful(F)
      ensures Refines(ExprJet(F, terms, p, u, By(t)), Eval(F, terms, p, r))
    {
      var x, dx := Eval(F, terms, p, a), Deriv(F, terms, p, u, a);
      var y, dy := Eval(F, terms, p, b), Deriv(F, terms, p, u, b);
      assert Refines(ExprJet(F, terms, p, u, By(b)), Eval(F, terms, p, ZERO));
      DerivMonotone(F, x, x, dx, dx, y, dy, JET_ZERO);
      QuotientByConstant(F, x, x, dx, y);
      assert ExprJet(F, terms, p, u, B(DIVIDE, By(a), Of(b))) == JetBinary(F, DIVIDE, dx, y);
      assert Refines(ExprJet(F, terms, p, u, B(DIVIDE, By(a), Of(b))), Eval(F, terms, p, r));
    }
  }

  lemma QuotientByConstant(F: Funs, t: Jet, x: Jet, dx: Jet, y: Jet)
    ensures Refines(DerivBinary(F, DIVIDE, t, x, dx, y, JET_ZERO), JetBinary(F, DIVIDE, dx, y))
  {
    var top := JetBinary(F, MINUS, JetBinary(F, TIMES, dx, y), JetBinary(F, TIMES, JET_ZERO, x));
    var bottom := JetBinary(F, TIMES, y, y);
    if top.x.Some? && y.x.Some? && y.x.value != 0.0 {
      SquarePositive(y.x.value, bottom.x.value);
      Cancel(top.x.value, bottom.x.value, dx.x.value, y.x.value, y.x.value);
      if top.d.Some? && y.d.Some? {
        QuotientTangent(dx.x.value, dx.d.value, x.x.value, x.d.value, y.x.value, y.d.value,
                        top.x.value, top.d.value, bottom.x.value, bottom.d.value);
      }
    }
  }

  /** The tangent of the quotient rule with a constant denominator. */
  lemma QuotientTangent(a: real, a': real, x: real, x': real, y: real, y': real,
                        n: real, n': real, s: real, s': real)
    requires s > 0.0 && s == y * y && s' == y * y' + y' * y
    requires n == a * y - 0.0 * x
    requires n' == (a * y' + a' * y) - (0.0 * x' + 0.0 * x)
    requires y != 0.0
    ensures QuotientSlope(n, n', s, s') == QuotientSlope(a, a', y, y')
  {
    var q := s * s;
    SquarePositive(s, q);
    var top := n' * s - s' * n;
    assert top == (a' * y - y' * a) * s by {
      assert n == a * y && n' == a * y' + a' * y;
      assert s' * n == (2.0 * (y' * a)) * (y * y);
      assert n' * s == (a * y') * s + (a' * y) * s;
    }
    Cancel(top, q, a' * y - y' * a, s, s);
  }
}
