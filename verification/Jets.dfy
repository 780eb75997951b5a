/** First-order jets: a partial real value together with a partial derivative in
    one direction.  The two parts are partial independently, because sqrt has a
    value but no derivative at zero. */
module Jets {
  import opened Reals
  import opened Wrappers

  datatype UnaryCode = UMINUS | LOG | EXP | SIN | COS | TAN | SQRT | ERF | ERFC

  datatype BinaryCode = PLUS | MINUS | TIMES | DIVIDE | POWER

  /** The transcendental functions; nothing is known of them but Lawful. */
  datatype Funs = Funs(log: real -> real, exp: real -> real, sin: real -> real, cos: real -> real,
                       tan: real -> real, sqrt: real -> real, erf: real -> real, erfc: real -> real,
                       pow: (real, real) -> real, twoOverPi: real)

  /** The facts the local simplifications and the derivative rules rely on. */
  ghost predicate Lawful(F: Funs) {
    && F.log(1.0) == 0.0 && F.exp(0.0) == 1.0 && F.sin(0.0) == 0.0 && F.cos(0.0) == 1.0
    && F.tan(0.0) == 0.0 && F.sqrt(0.0) == 0.0 && F.erf(0.0) == 0.0 && F.erfc(0.0) == 1.0
    && (forall x: real :: x > 0.0 ==> F.sqrt(x) > 0.0)
    && (forall x: real :: x > 0.0 ==> F.pow(x, 0.0) == 1.0 && F.pow(x, 1.0) == x)
    && (forall y: real :: F.pow(1.0, y) == 1.0)
    && (forall x: real, y: real {:trigger F.pow(x, y - 1.0)} :: x > 0.0 ==> F.pow(x, y - 1.0) * x == F.pow(x, y))
  }

  datatype Jet = Jet(x: Option<real>, d: Option<real>)

  const UNDEFINED := Jet(None, None)
  const JET_ZERO := Jet(Some(0.0), Some(0.0))
  const JET_ONE := Jet(Some(1.0), Some(0.0))

  /** b is defined and equal wherever a is defined. */
  ghost predicate Refines(a: Jet, b: Jet) {
    && (a.x.Some? ==> b.x == a.x)
    && (a.d.Some? ==> b.d == a.d)
  }

  /** Quotients as a function, so that equal operands give equal results. */
  function Div(a: real, b: real): real
    requires b != 0.0
  {
    a / b
  }

  lemma MulNonZero(y: real)
    requires y != 0.0
    ensures Mul(y, y) > 0.0
  {
    SquarePositive(y, Mul(y, y));
  }

  /** The value of a unary operation, undefined outside its domain. */
  ghost function UnaryValue(F: Funs, code: UnaryCode, x: real): Option<real> {
    match code
    case UMINUS => Some(-x)
    case LOG => if x > 0.0 then Some(F.log(x)) else None
    case EXP => Some(F.exp(x))
    case SIN => Some(F.sin(x))
    case COS => Some(F.cos(x))
    case TAN => if F.cos(x) != 0.0 then Some(F.tan(x)) else None
    case SQRT => if x >= 0.0 then Some(F.sqrt(x)) else None
    case ERF => Some(F.erf(x))
    case ERFC => Some(F.erfc(x))
  }

  /** The textbook derivative of a unary operation at x along d. */
  ghost function UnaryTangent(F: Funs, code: UnaryCode, x: real, d: real): Option<real> {
    match code
    case UMINUS => Some(-d)
    case LOG => if x > 0.0 then Some(Div(d, x)) else None
    case EXP => Some(Mul(F.exp(x), d))
    case SIN => Some(Mul(F.cos(x), d))
    case COS => Some(-Mul(F.sin(x), d))
    case TAN => if F.cos(x) != 0.0 then MulNonZero(F.cos(x)); Some(Div(d, Mul(F.cos(x), F.cos(x)))) else None
    case SQRT => if x > 0.0 && F.sqrt(x) != 0.0 then Some(Div(d, F.sqrt(x) + F.sqrt(x))) else None
    case ERF => Some(Mul(F.twoOverPi, Mul(F.exp(-Mul(x, x)), d)))
    case ERFC => Some(-Mul(F.twoOverPi, Mul(F.exp(-Mul(x, x)), d)))
  }

  /** The value of a binary operation; powers are restricted to a positive base. */
  ghost function BinaryValue(F: Funs, code: BinaryCode, x: real, y: real): Option<real> {
    match code
    case PLUS => Some(x + y)
    case MINUS => Some(x - y)
    case TIMES => Some(Mul(x, y))
    case DIVIDE => if y != 0.0 then Some(Div(x, y)) else None
    case POWER => if x > 0.0 then Some(F.pow(x, y)) else None
  }

  /** The derivative of x / y. */
  ghost function QuotientSlope(x: real, dx: real, y: real, dy: real): real
    requires y != 0.0
  {
    MulNonZero(y);
    Div(Mul(dx, y) - Mul(dy, x), Mul(y, y))
  }

  /** The derivative of x^y by way of exp(y log x). */
  ghost function PowerTangent(F: Funs, x: real, dx: real, y: real, dy: real): real
    requires x != 0.0
  {
    Mul(F.pow(x, y), Mul(dy, F.log(x)) + Mul(y, Div(dx, x)))
  }

  /** The textbook derivative of a binary operation at (x, y) along (dx, dy). */
  ghost function BinaryTangent(F: Funs, code: BinaryCode, x: real, dx: real, y: real, dy: real): Option<real> {
    match code
    case PLUS => Some(dx + dy)
    case MINUS => Some(dx - dy)
    case TIMES => Some(Mul(x, dy) + Mul(dx, y))
    case DIVIDE => if y != 0.0 then Some(QuotientSlope(x, dx, y, dy)) else None
    case POWER => if x > 0.0 then Some(PowerTangent(F, x, dx, y, dy)) else None
  }

  ghost function JetUnary(F: Funs, code: UnaryCode, a: Jet): Jet {
    Jet(if a.x.Some? then UnaryValue(F, code, a.x.value) else None,
        if a.x.Some? && a.d.Some? then UnaryTangent(F, code, a.x.value, a.d.value) else None)
  }

  ghost function JetBinary(F: Funs, code: BinaryCode, a: Jet, b: Jet): Jet {
    Jet(if a.x.Some? && b.x.Some? then BinaryValue(F, code, a.x.value, b.x.value) else None,
        if a.x.Some? && b.x.Some? && a.d.Some? && b.d.Some?
        then BinaryTangent(F, code, a.x.value, a.d.value, b.x.value, b.d.value) else None)
  }

  lemma JetUnaryMonotone(F: Funs, code: UnaryCode, a: Jet, a': Jet)
    requires Refines(a, a')
    ensures Refines(JetUnary(F, code, a), JetUnary(F, code, a'))
  {}

  lemma JetBinaryMonotone(F: Funs, code: BinaryCode, a: Jet, a': Jet, b: Jet, b': Jet)
    requires Refines(a, a') && Refines(b, b')
    ensures Refines(JetBinary(F, code, a, b), JetBinary(F, code, a', b'))
  {}

  /** Sums and products do not depend on the order of their operands. */
  lemma JetCommutes(F: Funs, code: BinaryCode, a: Jet, b: Jet)
    requires code == PLUS || code == TIMES
    ensures JetBinary(F, code, a, b) == JetBinary(F, code, b, a)
  {}

  /** The quick exits of the unary operations, as laws of jets. */
  lemma UnaryAtZero(F: Funs, code: UnaryCode)
    requires Lawful(F)
    ensures code in {UMINUS, SIN, TAN, SQRT, ERF} ==> Refines(JetUnary(F, code, JET_ZERO), JET_ZERO)
    ensures code == LOG ==> JetUnary(F, code, JET_ZERO) == UNDEFINED
    ensures code in {EXP, COS, ERFC} ==> Refines(JetUnary(F, code, JET_ZERO), JET_ONE)
  {}

  /** A quotient of equal operands is one wherever it is defined. */
  lemma DivideSelf(F: Funs, a: Jet)
    ensures Refines(JetBinary(F, DIVIDE, a, a), JET_ONE)
  {
    if a.x.Some? && a.x.value != 0.0 {
      SelfOver(a.x.value);
      if a.d.Some? {
        ZeroSlope(a.x.value, a.d.value, a.x.value, a.d.value);
      }
    }
  }

  lemma SelfOver(y: real)
    requires y != 0.0
    ensures y / y == 1.0
  {}

  lemma ProductPositive(a: real, b: real, s: real)
    requires a > 0.0 && b > 0.0 && s == a * b
    ensures s > 0.0
  {}

  lemma SquarePositive(y: real, s: real)
    requires y != 0.0 && s == y * y
    ensures s > 0.0
  {
    if y > 0.0 {
      ProductPositive(y, y, s);
    } else {
      ProductPositive(-y, -y, s);
    }
  }

  lemma ZeroOver(y: real)
    requires y != 0.0
    ensures 0.0 / y == 0.0 && y * y != 0.0 && 0.0 / (y * y) == 0.0
  {
    var s := y * y;
    SquarePositive(y, s);
  }

  /** A common factor cancels from a quotient. */
  lemma Cancel(n: real, d: real, a: real, b: real, c: real)
    requires b != 0.0 && d != 0.0 && n == a * c && d == b * c
    ensures n / d == a / b
  {
    var q := a / b;
    assert q * b == a;
    assert q * d == n;
  }

  lemma ZeroSlope(x: real, dx: real, y: real, dy: real)
    requires y != 0.0 && dx * y == dy * x
    ensures QuotientSlope(x, dx, y, dy) == 0.0
  {
    MulNonZero(y);
    var s := Mul(y, y);
    assert Mul(dx, y) - Mul(dy, x) == 0.0;
    assert Div(0.0, s) == 0.0;
  }

  lemma DivideZero(F: Funs, b: Jet)
    ensures Refines(JetBinary(F, DIVIDE, JET_ZERO, b), JET_ZERO)
    ensures JetBinary(F, DIVIDE, b, JET_ZERO) == UNDEFINED
  {
    if b.x.Some? && b.x.value != 0.0 {
      ZeroOver(b.x.value);
      if b.d.Some? {
        ZeroSlope(0.0, 0.0, b.x.value, b.d.value);
      }
    }
  }

  lemma PowerLaws(F: Funs, a: Jet)
    requires Lawful(F)
    ensures JetBinary(F, POWER, JET_ZERO, a) == UNDEFINED
    ensures Refines(JetBinary(F, POWER, a, JET_ZERO), JET_ONE)
    ensures Refines(JetBinary(F, POWER, JET_ONE, a), JET_ONE)
    ensures Refines(JetBinary(F, POWER, a, JET_ONE), a)
  {
    if a.x.Some? && a.d.Some? {
      var x, d := a.x.value, a.d.value;
      assert PowerTangent(F, 1.0, 0.0, x, d) == 0.0;
      if x > 0.0 {
        PowerTangentConstant(F, x, d, 0.0, 1.0);
        PowerTangentConstant(F, x, d, 1.0, x);
        assert x * (d / x) == d;
        assert PowerTangent(F, x, d, 1.0, 0.0) == d;
        assert BinaryTangent(F, POWER, x, d, 1.0, 0.0) == Some(d);
        assert JetBinary(F, POWER, a, JET_ONE).d == Some(d);
      }
    }
  }

  lemma PowerTangentConstant(F: Funs, x: real, dx: real, y: real, p: real)
    requires x != 0.0 && F.pow(x, y) == p
    ensures PowerTangent(F, x, dx, y, 0.0) == p * (y * (dx / x))
  {}
}
