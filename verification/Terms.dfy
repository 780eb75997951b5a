/** Terms of the operation tree: a sequence of operations whose operands are the
    indices of earlier terms, with its meaning, its leaves and its derivatives. */
module Terms {
  import opened Wrappers
  import Reals
  import opened Jets

  datatype Operation =
    | Nulary
    | Unary(ucode: UnaryCode, op1: nat)
    | Binary(bcode: BinaryCode, op1: nat, op2: nat)

  /** The special terms, the first in every tree. */
  const ZERO: nat := 0
  const ONE: nat := 1
  const NAN: nat := 2
  const TWO_OVER_PI: nat := 3
  const NUM_CONSTANTS: nat := 4

  /** Operands always come before the term that uses them. */
  ghost predicate WellFormed(terms: seq<Operation>) {
    && |terms| >= NUM_CONSTANTS
    && (forall t :: 0 <= t < NUM_CONSTANTS ==> terms[t] == Nulary)
    && (forall t :: 0 <= t < |terms| ==> OperandsBelow(terms[t], t))
  }

  predicate OperandsBelow(op: Operation, t: nat) {
    match op
    case Nulary => true
    case Unary(_, a) => a < t
    case Binary(_, a, b) => a < t && b < t
  }

  /** Jets of the leaves that have been given one. */
  type Point = map<nat, Jet>

  ghost function LeafJet(F: Funs, p: Point, t: nat): Jet {
    if t == ZERO then JET_ZERO
    else if t == ONE then JET_ONE
    else if t == NAN then UNDEFINED
    else if t == TWO_OVER_PI then Jet(Some(F.twoOverPi), Some(0.0))
    else if t in p then p[t]
    else UNDEFINED
  }

  /** The meaning of a term: strict, partial, read off the operations. */
  ghost function Eval(F: Funs, terms: seq<Operation>, p: Point, t: nat): Jet
    requires WellFormed(terms) && t < |terms|
    decreases t
  {
    assert OperandsBelow(terms[t], t);
    match terms[t]
    case Nulary => LeafJet(F, p, t)
    case Unary(c, a) => JetUnary(F, c, Eval(F, terms, p, a))
    case Binary(c, a, b) => JetBinary(F, c, Eval(F, terms, p, a), Eval(F, terms, p, b))
  }

  /** The leaves a term is built from. */
  function Leaves(terms: seq<Operation>, t: nat): set<nat>
    requires WellFormed(terms) && t < |terms|
    decreases t
  {
    assert OperandsBelow(terms[t], t);
    match terms[t]
    case Nulary => {t}
    case Unary(_, a) => Leaves(terms, a)
    case Binary(_, a, b) => Leaves(terms, a) + Leaves(terms, b)
  }

  /** The differentiation rule of a unary term with value t, operand x and operand
      derivative dx, read in the arithmetic of jets. */
  ghost function DerivUnary(F: Funs, code: UnaryCode, t: Jet, x: Jet, dx: Jet): Jet {
    match code
    case UMINUS => JetUnary(F, UMINUS, dx)
    case LOG => JetBinary(F, DIVIDE, dx, x)
    case EXP => JetBinary(F, TIMES, t, dx)
    case SIN => JetBinary(F, TIMES, JetUnary(F, COS, x), dx)
    case COS => JetUnary(F, UMINUS, JetBinary(F, TIMES, JetUnary(F, SIN, x), dx))
    case TAN => JetBinary(F, DIVIDE, dx, JetBinary(F, TIMES, JetUnary(F, COS, x), JetUnary(F, COS, x)))
    case SQRT => JetBinary(F, DIVIDE, dx, JetBinary(F, PLUS, t, t))
    case ERF => JetBinary(F, TIMES, Jet(Some(F.twoOverPi), Some(0.0)), GaussSlope(F, x, dx))
    case ERFC => JetUnary(F, UMINUS, JetBinary(F, TIMES, Jet(Some(F.twoOverPi), Some(0.0)), GaussSlope(F, x, dx)))
  }

  ghost function GaussSlope(F: Funs, x: Jet, dx: Jet): Jet {
    JetBinary(F, TIMES, JetUnary(F, EXP, JetUnary(F, UMINUS, JetBinary(F, TIMES, x, x))), dx)
  }

  /** The differentiation rule of a binary term. */
  ghost function DerivBinary(F: Funs, code: BinaryCode, t: Jet, x: Jet, dx: Jet, y: Jet, dy: Jet): Jet {
    match code
    case PLUS => JetBinary(F, PLUS, dx, dy)
    case MINUS => JetBinary(F, MINUS, dx, dy)
    case TIMES => JetBinary(F, PLUS, JetBinary(F, TIMES, x, dy), JetBinary(F, TIMES, dx, y))
    case DIVIDE =>
      JetBinary(F, DIVIDE,
                JetBinary(F, MINUS, JetBinary(F, TIMES, dx, y), JetBinary(F, TIMES, dy, x)),
                JetBinary(F, TIMES, y, y))
    case POWER =>
      JetBinary(F, PLUS,
                JetBinary(F, TIMES, dy, JetBinary(F, TIMES, t, JetUnary(F, LOG, x))),
                JetBinary(F, TIMES, dx, JetBinary(F, TIMES, y,
                                                  JetBinary(F, POWER, x, JetBinary(F, MINUS, y, JET_ONE)))))
  }

  /** The derivative of term t with respect to leaf u, as a jet at point p: its value
      is the first derivative, its tangent the mixed second derivative. */
  ghost function Deriv(F: Funs, terms: seq<Operation>, p: Point, u: nat, t: nat): Jet
    requires WellFormed(terms) && t < |terms|
    decreases t
  {
    assert OperandsBelow(terms[t], t);
    match terms[t]
    case Nulary => if t == u then JET_ONE else JET_ZERO
    case Unary(c, a) =>
      DerivUnary(F, c, Eval(F, terms, p, t), Eval(F, terms, p, a), Deriv(F, terms, p, u, a))
    case Binary(c, a, b) =>
      DerivBinary(F, c, Eval(F, terms, p, t), Eval(F, terms, p, a), Deriv(F, terms, p, u, a),
                  Eval(F, terms, p, b), Deriv(F, terms, p, u, b))
  }

  // ----- growth -----

  /** Adding terms changes nothing about the old ones. */
  lemma {:induction false} EvalGrows(F: Funs, terms: seq<Operation>, more: seq<Operation>, p: Point, t: nat)
    requires WellFormed(terms) && WellFormed(more) && terms <= more && t < |terms|
    ensures Eval(F, more, p, t) == Eval(F, terms, p, t)
    decreases t
  {
    assert OperandsBelow(terms[t], t);
    assert more[t] == terms[t];
    match terms[t]
    case Nulary =>
    case Unary(_, a) => EvalGrows(F, terms, more, p, a);
    case Binary(_, a, b) => EvalGrows(F, terms, more, p, a); EvalGrows(F, terms, more, p, b);
  }

  lemma {:induction false} LeavesGrow(terms: seq<Operation>, more: seq<Operation>, t: nat)
    requires WellFormed(terms) && WellFormed(more) && terms <= more && t < |terms|
    ensures Leaves(more, t) == Leaves(terms, t)
    decreases t
  {
    assert OperandsBelow(terms[t], t);
    assert more[t] == terms[t];
    match terms[t]
    case Nulary =>
    case Unary(_, a) => LeavesGrow(terms, more, a);
    case Binary(_, a, b) => LeavesGrow(terms, more, a); LeavesGrow(terms, more, b);
  }

  lemma {:induction false} DerivGrows(F: Funs, terms: seq<Operation>, more: seq<Operation>, p: Point, u: nat, t: nat)
    requires WellFormed(terms) && WellFormed(more) && terms <= more && t < |terms|
    ensures Deriv(F, more, p, u, t) == Deriv(F, terms, p, u, t)
    decreases t
  {
    assert OperandsBelow(terms[t], t);
    assert more[t] == terms[t];
    EvalGrows(F, terms, more, p, t);
    match terms[t]
    case Nulary =>
    case Unary(_, a) =>
      EvalGrows(F, terms, more, p, a);
      DerivGrows(F, terms, more, p, u, a);
    case Binary(_, a, b) =>
      EvalGrows(F, terms, more, p, a);
      EvalGrows(F, terms, more, p, b);
      DerivGrows(F, terms, more, p, u, a);
      DerivGrows(F, terms, more, p, u, b);
  }

  // ----- plain expressions and their representation -----

  /** An expression over the terms of a tree, as its user would write it down:
      Of(t) stands for a term, By(t) for the derivative of a term. */
  datatype Expr =
    | Of(t: nat)
    | By(t: nat)
    | U(ucode: UnaryCode, e1: Expr)
    | B(bcode: BinaryCode, e1: Expr, e2: Expr)

  ghost predicate Inside(e: Expr, n: nat) {
    match e
    case Of(t) => t < n
    case By(t) => t < n
    case U(_, e1) => Inside(e1, n)
    case B(_, e1, e2) => Inside(e1, n) && Inside(e2, n)
  }

  ghost function ExprJet(F: Funs, terms: seq<Operation>, p: Point, u: nat, e: Expr): Jet
    requires WellFormed(terms)
  {
    match e
    case Of(t) => if t < |terms| then Eval(F, terms, p, t) else UNDEFINED
    case By(t) => if t < |terms| then Deriv(F, terms, p, u, t) else UNDEFINED
    case U(c, e1) => JetUnary(F, c, ExprJet(F, terms, p, u, e1))
    case B(c, e1, e2) => JetBinary(F, c, ExprJet(F, terms, p, u, e1), ExprJet(F, terms, p, u, e2))
  }

  /** Term r represents expression e: wherever e is defined, r is defined and equal. */
  ghost predicate Represents(terms: seq<Operation>, u: nat, e: Expr, r: nat) {
    && WellFormed(terms) && Inside(e, |terms|) && r < |terms|
    && (forall F: Funs, p: Point {:trigger Eval(F, terms, p, r)} ::
          Lawful(F) ==> Refines(ExprJet(F, terms, p, u, e), Eval(F, terms, p, r)))
  }

  lemma {:induction e} ExprGrows(F: Funs, terms: seq<Operation>, more: seq<Operation>, p: Point, u: nat, e: Expr)
    requires WellFormed(terms) && WellFormed(more) && terms <= more && Inside(e, |terms|)
    ensures Inside(e, |more|)
    ensures ExprJet(F, more, p, u, e) == ExprJet(F, terms, p, u, e)
  {
    match e
    case Of(t) => EvalGrows(F, terms, more, p, t);
    case By(t) => DerivGrows(F, terms, more, p, u, t);
    case U(_, e1) => ExprGrows(F, terms, more, p, u, e1);
    case B(_, e1, e2) => ExprGrows(F, terms, more, p, u, e1); ExprGrows(F, terms, more, p, u, e2);
  }

  lemma InsideGrows(e: Expr, n: nat, m: nat)
    requires Inside(e, n) && n <= m
    ensures Inside(e, m)
  {}

  lemma RepresentsGrows(terms: seq<Operation>, more: seq<Operation>, u: nat, e: Expr, r: nat)
    requires Represents(terms, u, e, r) && WellFormed(more) && terms <= more
    ensures Represents(more, u, e, r)
  {
    InsideGrows(e, |terms|, |more|);
    forall F: Funs, p: Point | Lawful(F)
      ensures Refines(ExprJet(F, more, p, u, e), Eval(F, more, p, r))
    {
      ExprGrows(F, terms, more, p, u, e);
      EvalGrows(F, terms, more, p, r);
      assert Refines(ExprJet(F, terms, p, u, e), Eval(F, terms, p, r));
    }
  }

  /** Every representation survives growth. */
  lemma AllRepresentsGrow(terms: seq<Operation>, more: seq<Operation>)
    requires WellFormed(terms) && WellFormed(more) && terms <= more
    ensures forall u: nat, e: Expr, r: nat :: Represents(terms, u, e, r) ==> Represents(more, u, e, r)
  {
    forall u: nat, e: Expr, r: nat | Represents(terms, u, e, r)
      ensures Represents(more, u, e, r)
    {
      RepresentsGrows(terms, more, u, e, r);
    }
  }

  lemma SelfRepresents(terms: seq<Operation>, u: nat)
    requires WellFormed(terms)
    ensures forall t: nat {:trigger Of(t)} :: t < |terms| ==> Represents(terms, u, Of(t), t)
  {}

  // ----- the local simplifications -----

  /** The quick exits of the unary operations. */
  function QuickUnary(code: UnaryCode, op: nat): Option<nat> {
    if op == ZERO && code in {UMINUS, SIN, TAN, SQRT, ERF} then Some(ZERO)
    else if (op == ZERO && code == LOG) || op == NAN then Some(NAN)
    else if op == ZERO && code in {EXP, COS, ERFC} then Some(ONE)
    else None
  }

  /** The quick exits of the binary operations, but for zero minus a term. */
  function QuickBinary(code: BinaryCode, op1: nat, op2: nat): Option<nat> {
    if op1 == NAN || op2 == NAN then Some(NAN)
    else match code
      case PLUS =>
        if op1 == ZERO then Some(op2) else if op2 == ZERO then Some(op1) else None
      case MINUS =>
        if op1 == ZERO && op2 == ZERO then Some(ZERO)
        else if op1 != ZERO && op2 == ZERO then Some(op1)
        else None
      case TIMES =>
        if op1 == ZERO || op2 == ZERO then Some(ZERO)
        else if op1 == ONE then Some(op2)
        else if op2 == ONE then Some(op1)
        else None
      case DIVIDE =>
        if op1 == op2 then Some(ONE)
        else if op1 == ZERO then Some(ZERO)
        else if op2 == ZERO then Some(NAN)
        else None
      case POWER =>
        if op1 == ZERO && op2 == ZERO then Some(NAN)
        else if op1 == ZERO then Some(ZERO)
        else if op2 == ZERO then Some(ONE)
        else if op1 == ONE then Some(ONE)
        else if op2 == ONE then Some(op1)
        else None
  }

  /** Operands of commutative operations are kept in increasing order. */
  function Ordered(code: BinaryCode, op1: nat, op2: nat): Operation {
    if (code == TIMES || code == PLUS) && op1 > op2 then Binary(code, op2, op1) else Binary(code, op1, op2)
  }

  /** An operation no quick exit applies to, with its operands in order. */
  predicate Irreducible(op: Operation) {
    match op
    case Nulary => true
    case Unary(c, a) => QuickUnary(c, a) == None
    case Binary(c, a, b) => QuickBinary(c, a, b) == None && Ordered(c, a, b) == op && !(c == MINUS && a == ZERO)
  }

  /** A quick exit returns a term that refines the operation it stands for. */
  lemma QuickUnarySound(F: Funs, terms: seq<Operation>, p: Point, code: UnaryCode, op: nat)
    requires Lawful(F) && WellFormed(terms) && op < |terms| && QuickUnary(code, op).Some?
    ensures QuickUnary(code, op).value < |terms|
    ensures Refines(JetUnary(F, code, Eval(F, terms, p, op)), Eval(F, terms, p, QuickUnary(code, op).value))
  {
    UnaryAtZero(F, code);
  }

  lemma QuickBinarySound(F: Funs, terms: seq<Operation>, p: Point, code: BinaryCode, op1: nat, op2: nat)
    requires Lawful(F) && WellFormed(terms) && op1 < |terms| && op2 < |terms| && QuickBinary(code, op1, op2).Some?
    ensures QuickBinary(code, op1, op2).value < |terms|
    ensures Refines(JetBinary(F, code, Eval(F, terms, p, op1), Eval(F, terms, p, op2)),
                    Eval(F, terms, p, QuickBinary(code, op1, op2).value))
  {
    var x, y := Eval(F, terms, p, op1), Eval(F, terms, p, op2);
    match code
    case PLUS =>
    case MINUS =>
    case TIMES =>
    case DIVIDE => DivideSelf(F, x); DivideZero(F, x); DivideZero(F, y);
    case POWER => PowerLaws(F, x); PowerLaws(F, y);
  }

  /** A unary simplification has the value of the operation, defined in the same places: the logarithm of zero and operations
      on NaN have none. */
  lemma QuickUnaryExact(F: Funs, terms: seq<Operation>, p: Point, code: UnaryCode, op: nat)
    requires Lawful(F) && WellFormed(terms) && op < |terms| && QuickUnary(code, op).Some?
    ensures QuickUnary(code, op).value < |terms|
    ensures Eval(F, terms, p, QuickUnary(code, op).value).x == JetUnary(F, code, Eval(F, terms, p, op)).x
    ensures QuickUnary(code, op).value == NAN <==> op == NAN || (op == ZERO && code == LOG)
  {
    UnaryAtZero(F, code);
    assert Eval(F, terms, p, ZERO) == JET_ZERO && Eval(F, terms, p, ONE) == JET_ONE && Eval(F, terms, p, NAN) == UNDEFINED;
  }

  /** The binary simplifications that may have a value where the operation has none: products with zero, zero or a term over
      itself, and powers with zero or one as base or exponent, but for zero to the zero. */
  predicate MayDefine(code: BinaryCode, op1: nat, op2: nat) {
    && op1 != NAN && op2 != NAN
    && match code
       case PLUS => false
       case MINUS => false
       case TIMES => op1 == ZERO || op2 == ZERO
       case DIVIDE => op1 == op2 || op1 == ZERO
       case POWER => (op1 == ZERO) != (op2 == ZERO) || op1 == ONE || op2 == ONE
  }

  /** All other binary simplifications have the value of the operation, defined in the same places: quotients by zero, zero to
      the zero and operations on NaN have none. */
  lemma QuickBinaryExact(F: Funs, terms: seq<Operation>, p: Point, code: BinaryCode, op1: nat, op2: nat)
    requires Lawful(F) && WellFormed(terms) && op1 < |terms| && op2 < |terms| && QuickBinary(code, op1, op2).Some?
    ensures QuickBinary(code, op1, op2).value < |terms|
    ensures op1 == NAN || op2 == NAN || (code == DIVIDE && op1 != ZERO && op2 == ZERO) ==> QuickBinary(code, op1, op2).value == NAN
    ensures !MayDefine(code, op1, op2) ==>
      Eval(F, terms, p, QuickBinary(code, op1, op2).value).x == JetBinary(F, code, Eval(F, terms, p, op1), Eval(F, terms, p, op2)).x
  {
    var x, y := Eval(F, terms, p, op1), Eval(F, terms, p, op2);
    assert Eval(F, terms, p, ZERO) == JET_ZERO && Eval(F, terms, p, ONE) == JET_ONE && Eval(F, terms, p, NAN) == UNDEFINED;
    match code
    case PLUS =>
    case MINUS =>
    case TIMES =>
      if x.x.Some? { Reals.MulUnits(x.x.value); }
      if y.x.Some? { Reals.MulUnits(y.x.value); }
    case DIVIDE =>
    case POWER =>
  }

  // ----- how representations combine -----

  /** Term r represents code applied to term a. */
  ghost predicate IsUnary(terms: seq<Operation>, code: UnaryCode, a: nat, r: nat) {
    Represents(terms, 0, U(code, Of(a)), r)
  }

  ghost predicate IsBinary(terms: seq<Operation>, code: BinaryCode, a: nat, b: nat, r: nat) {
    Represents(terms, 0, B(code, Of(a), Of(b)), r)
  }

  lemma ComposeUnary(terms: seq<Operation>, u: nat, code: UnaryCode, e: Expr, a: nat, r: nat)
    requires Represents(terms, u, e, a) && IsUnary(terms, code, a, r)
    ensures Represents(terms, u, U(code, e), r)
  {
    forall F: Funs, p: Point | Lawful(F)
      ensures Refines(ExprJet(F, terms, p, u, U(code, e)), Eval(F, terms, p, r))
    {
      assert Refines(ExprJet(F, terms, p, u, e), Eval(F, terms, p, a));
      JetUnaryMonotone(F, code, ExprJet(F, terms, p, u, e), Eval(F, terms, p, a));
      assert Refines(ExprJet(F, terms, p, 0, U(code, Of(a))), Eval(F, terms, p, r));
      assert ExprJet(F, terms, p, 0, Of(a)) == Eval(F, terms, p, a);
    }
  }

  lemma ComposeBinary(terms: seq<Operation>, u: nat, code: BinaryCode, e1: Expr, e2: Expr, a: nat, b: nat, r: nat)
    requires Represents(terms, u, e1, a) && Represents(terms, u, e2, b) && IsBinary(terms, code, a, b, r)
    ensures Represents(terms, u, B(code, e1, e2), r)
  {
    forall F: Funs, p: Point | Lawful(F)
      ensures Refines(ExprJet(F, terms, p, u, B(code, e1, e2)), Eval(F, terms, p, r))
    {
      var x1, x2 := ExprJet(F, terms, p, u, e1), ExprJet(F, terms, p, u, e2);
      assert Refines(x1, Eval(F, terms, p, a)) && Refines(x2, Eval(F, terms, p, b));
      JetBinaryMonotone(F, code, x1, Eval(F, terms, p, a), x2, Eval(F, terms, p, b));
      assert Refines(ExprJet(F, terms, p, 0, B(code, Of(a), Of(b))), Eval(F, terms, p, r));
      assert ExprJet(F, terms, p, 0, Of(a)) == Eval(F, terms, p, a);
      assert ExprJet(F, terms, p, 0, Of(b)) == Eval(F, terms, p, b);
    }
  }
}
