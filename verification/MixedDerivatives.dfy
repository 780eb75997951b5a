/** Differentiation computes tangents, and the order of two differentiations does not matter. */
module MixedDerivatives {
  import opened Wrappers
  import opened Jets
  import opened Reals
  import opened Terms

  /** The point with the given leaf values, moving in the direction of leaf u. */
  ghost function At(val: map<nat, real>, u: nat): Point {
    map n | n in val :: Jet(Some(val[n]), Some(if n == u then 1.0 else 0.0))
  }

  ghost predicate HasValues(p: Point, val: map<nat, real>) {
    p.Keys == val.Keys && forall n :: n in val ==> p[n].x == Some(val[n])
  }

  /** Values do not depend on directions. */
  lemma {:induction false} SameValue(F: Funs, terms: seq<Operation>, p: Point, q: Point, val: map<nat, real>, t: nat)
    requires WellFormed(terms) && t < |terms| && HasValues(p, val) && HasValues(q, val)
    ensures Eval(F, terms, p, t).x == Eval(F, terms, q, t).x
    decreases t
  {
    assert OperandsBelow(terms[t], t);
    match terms[t]
    case Nulary =>
    case Unary(c, a) => SameValue(F, terms, p, q, val, a);
    case Binary(c, a, b) => SameValue(F, terms, p, q, val, a); SameValue(F, terms, p, q, val, b);
  }

  // ----- first derivatives are tangents -----

  /** The value of the derivative of t by u is the tangent of t in direction u. */
  lemma {:induction false} DerivIsTangent(F: Funs, terms: seq<Operation>, p: Point, val: map<nat, real>, u: nat, t: nat)
    requires Lawful(F) && WellFormed(terms) && t < |terms| && u >= NUM_CONSTANTS && HasValues(p, val)
    requires Eval(F, terms, At(val, u), t).d.Some?
    ensures Deriv(F, terms, p, u, t).x == Eval(F, terms, At(val, u), t).d
    decreases t
  {
    assert OperandsBelow(terms[t], t);
    match terms[t]
    case Nulary =>
    case Unary(c, a) =>
      DerivIsTangent(F, terms, p, val, u, a);
      SameValue(F, terms, p, At(val, u), val, a);
      var x, d := Eval(F, terms, At(val, u), a).x.value, Eval(F, terms, At(val, u), a).d.value;
      UnaryRuleValue(F, c, Eval(F, terms, p, a), Deriv(F, terms, p, u, a), x, d);
    case Binary(c, a, b) =>
      DerivIsTangent(F, terms, p, val, u, a);
      DerivIsTangent(F, terms, p, val, u, b);
      SameValue(F, terms, p, At(val, u), val, a);
      SameValue(F, terms, p, At(val, u), val, b);
      var X, Y := Eval(F, terms, At(val, u), a), Eval(F, terms, At(val, u), b);
      BinaryRuleValue(F, c, Eval(F, terms, p, a), Deriv(F, terms, p, u, a),
                      Eval(F, terms, p, b), Deriv(F, terms, p, u, b), X.x.value, X.d.value, Y.x.value, Y.d.value);
  }

  lemma UnaryRuleValue(F: Funs, c: UnaryCode, X: Jet, DX: Jet, x: real, d: real)
    requires Lawful(F) && X.x == Some(x) && DX.x == Some(d) && UnaryTangent(F, c, x, d).Some?
    ensures DerivUnary(F, c, JetUnary(F, c, X), X, DX).x == UnaryTangent(F, c, x, d)
  {
    var square := JetBinary(F, TIMES, X, X);
    assert square.x == Some(Mul(x, x));
    assert JetUnary(F, EXP, JetUnary(F, UMINUS, square)).x == Some(F.exp(-Mul(x, x)));
    assert GaussSlope(F, X, DX).x == Some(Mul(F.exp(-Mul(x, x)), d));
    match c
    case TAN => MulNonZero(F.cos(x));
    case _ =>
  }

  lemma BinaryRuleValue(F: Funs, c: BinaryCode, X: Jet, DX: Jet, Y: Jet, DY: Jet, x: real, dx: real, y: real, dy: real)
    requires Lawful(F) && X.x == Some(x) && DX.x == Some(dx) && Y.x == Some(y) && DY.x == Some(dy)
    requires BinaryTangent(F, c, x, dx, y, dy).Some?
    ensures DerivBinary(F, c, JetBinary(F, c, X, Y), X, DX, Y, DY).x == BinaryTangent(F, c, x, dx, y, dy)
  {
    match c
    case DIVIDE => SquarePositive(y, y * y);
    case POWER =>
      var p, q, l := F.pow(x, y), F.pow(x, y - 1.0), F.log(x);
      PowerRuleValue(x, dx, y, dy, p, q, l);
      var less := JetBinary(F, MINUS, Y, JET_ONE);
      assert less.x == Some(y - 1.0);
      assert JetBinary(F, POWER, X, less).x == Some(q);
      assert DerivBinary(F, POWER, JetBinary(F, POWER, X, Y), X, DX, Y, DY).x
          == Some(Mul(dy, Mul(p, l)) + Mul(dx, Mul(y, q)));
    case _ =>
  }

  lemma PowerRuleValue(x: real, dx: real, y: real, dy: real, p: real, q: real, l: real)
    requires x > 0.0 && q * x == p
    ensures Mul(dy, Mul(p, l)) + Mul(dx, Mul(y, q)) == Mul(p, Mul(dy, l) + Mul(y, Div(dx, x)))
  {
    var r := dx / x;
    assert r * x == dx;
    assert dx * (y * q) == (r * y) * (q * x);
    assert (r * y) * (q * x) == (r * y) * p;
  }

  // ----- the order of two differentiations -----

  /** What is common to the two ways of taking a mixed derivative: X and X' are a term moving
      along u and along v, D its derivative by u moving along v, D' the other way round. */
  ghost predicate Twins(X: Jet, X': Jet, D: Jet, D': Jet) {
    && X.x == X'.x && (X.d.Some? <==> X'.d.Some?)
    && (D.x.Some? <==> D'.x.Some?) && D.d == D'.d
    && (X.d.Some? ==> D.x == X.d && D'.x == X'.d)
  }

  lemma {:induction false} MixedDerivativesAreTwins(F: Funs, terms: seq<Operation>, val: map<nat, real>, u: nat, v: nat, t: nat)
    requires Lawful(F) && WellFormed(terms) && t < |terms| && u >= NUM_CONSTANTS && v >= NUM_CONSTANTS
    ensures Twins(Eval(F, terms, At(val, u), t), Eval(F, terms, At(val, v), t),
                  Deriv(F, terms, At(val, v), u, t), Deriv(F, terms, At(val, u), v, t))
    decreases t
  {
    assert OperandsBelow(terms[t], t);
    var p, q := At(val, u), At(val, v);
    match terms[t]
    case Nulary =>
    case Unary(c, a) =>
      MixedDerivativesAreTwins(F, terms, val, u, v, a);
      TwinsUnary(F, c, Eval(F, terms, p, a), Eval(F, terms, q, a), Deriv(F, terms, q, u, a), Deriv(F, terms, p, v, a));
    case Binary(c, a, b) =>
      MixedDerivativesAreTwins(F, terms, val, u, v, a);
      MixedDerivativesAreTwins(F, terms, val, u, v, b);
      TwinsBinary(F, c, Eval(F, terms, p, a), Eval(F, terms, q, a), Deriv(F, terms, q, u, a), Deriv(F, terms, p, v, a),
                  Eval(F, terms, p, b), Eval(F, terms, q, b), Deriv(F, terms, q, u, b), Deriv(F, terms, p, v, b));
  }

  lemma TwinsUnary(F: Funs, c: UnaryCode, X: Jet, X': Jet, D: Jet, D': Jet)
    requires Lawful(F) && Twins(X, X', D, D')
    ensures Twins(JetUnary(F, c, X), JetUnary(F, c, X'),
                  DerivUnary(F, c, JetUnary(F, c, X'), X', D), DerivUnary(F, c, JetUnary(F, c, X), X, D'))
  {
    if X.x.Some? && X.d.Some? && UnaryTangent(F, c, X.x.value, X.d.value).Some? {
      UnaryRuleValue(F, c, X', D, X.x.value, X.d.value);
      UnaryRuleValue(F, c, X, D', X.x.value, X'.d.value);
    }
    if X.x.Some? && X.d.Some? && D.x.Some? && D.d.Some? {
      var x, a, b, m := X.x.value, X.d.value, X'.d.value, D.d.value;
      Swaps(a, b);
      match c
      case UMINUS =>
      case LOG =>
        if x > 0.0 { SlopeSwaps(a, b, m, x, b, a); }
      case EXP => ProductSwaps(F.exp(x), a, b);
      case SIN => ProductSwaps(F.sin(x), a, b);
      case COS => ProductSwaps(F.cos(x), a, b);
      case TAN =>
        if F.cos(x) != 0.0 { TangentSwaps(F, X, X', D, D', x, a, b, m); }
      case SQRT =>
        if x > 0.0 { RootSwaps(F, X, X', D, D', x, a, b, m); }
      case ERF => BellSwaps(F, X, X', D, D', x, a, b, m);
      case ERFC => BellSwaps(F, X, X', D, D', x, a, b, m);
    }
  }

  lemma Swaps(a: real, b: real)
    ensures Mul(a, b) == Mul(b, a)
  {}

  lemma ProductSwaps(e: real, a: real, b: real)
    ensures Mul(Mul(e, b), a) == Mul(Mul(e, a), b)
    ensures Mul(-Mul(e, b), a) == Mul(-Mul(e, a), b)
  {}

  lemma SlopeSwaps(a: real, b: real, m: real, y: real, yb: real, ya: real)
    requires y != 0.0 && yb * a == ya * b
    ensures QuotientSlope(a, m, y, yb) == QuotientSlope(b, m, y, ya)
  {
    assert Mul(yb, a) == Mul(ya, b);
  }

  lemma TangentSwaps(F: Funs, X: Jet, X': Jet, D: Jet, D': Jet, x: real, a: real, b: real, m: real)
    requires X == Jet(Some(x), Some(a)) && X' == Jet(Some(x), Some(b)) && F.cos(x) != 0.0
    requires D == Jet(Some(a), Some(m)) && D' == Jet(Some(b), Some(m))
    ensures DerivUnary(F, TAN, JetUnary(F, TAN, X'), X', D).d == DerivUnary(F, TAN, JetUnary(F, TAN, X), X, D').d
  {
    var c, s := F.cos(x), F.sin(x);
    MulNonZero(c);
    var ya, yb := Mul(c, -Mul(s, a)) + Mul(-Mul(s, a), c), Mul(c, -Mul(s, b)) + Mul(-Mul(s, b), c);
    var square, square' := JetBinary(F, TIMES, JetUnary(F, COS, X), JetUnary(F, COS, X)),
                           JetBinary(F, TIMES, JetUnary(F, COS, X'), JetUnary(F, COS, X'));
    assert square == Jet(Some(Mul(c, c)), Some(ya));
    assert square' == Jet(Some(Mul(c, c)), Some(yb));
    SlopeSwaps(a, b, m, Mul(c, c), yb, ya);
  }

  lemma RootSwaps(F: Funs, X: Jet, X': Jet, D: Jet, D': Jet, x: real, a: real, b: real, m: real)
    requires Lawful(F) && X == Jet(Some(x), Some(a)) && X' == Jet(Some(x), Some(b)) && x > 0.0
    requires D == Jet(Some(a), Some(m)) && D' == Jet(Some(b), Some(m))
    ensures DerivUnary(F, SQRT, JetUnary(F, SQRT, X'), X', D).d == DerivUnary(F, SQRT, JetUnary(F, SQRT, X), X, D').d
  {
    var s := F.sqrt(x);
    var ya, yb := Div(a, s + s) + Div(a, s + s), Div(b, s + s) + Div(b, s + s);
    assert yb * a == ya * b by {
      var r := 1.0 / (s + s);
      assert Div(a, s + s) == a * r && Div(b, s + s) == b * r;
    }
    SlopeSwaps(a, b, m, s + s, yb, ya);
  }

  lemma BellSwaps(F: Funs, X: Jet, X': Jet, D: Jet, D': Jet, x: real, a: real, b: real, m: real)
    requires X == Jet(Some(x), Some(a)) && X' == Jet(Some(x), Some(b))
    requires D == Jet(Some(a), Some(m)) && D' == Jet(Some(b), Some(m))
    ensures GaussSlope(F, X', D).d == GaussSlope(F, X, D').d
    ensures GaussSlope(F, X', D).x == Some(Mul(F.exp(-Mul(x, x)), a)) && GaussSlope(F, X, D').x == Some(Mul(F.exp(-Mul(x, x)), b))
  {
    var e := F.exp(-Mul(x, x));
    var na, nb := -(Mul(x, a) + Mul(a, x)), -(Mul(x, b) + Mul(b, x));
    var minus, minus' := JetUnary(F, UMINUS, JetBinary(F, TIMES, X, X)), JetUnary(F, UMINUS, JetBinary(F, TIMES, X', X'));
    assert minus == Jet(Some(-Mul(x, x)), Some(na));
    assert minus' == Jet(Some(-Mul(x, x)), Some(nb));
    assert Mul(Mul(e, nb), a) == Mul(Mul(e, na), b);
  }

  lemma TwinsBinary(F: Funs, c: BinaryCode, X: Jet, X': Jet, DX: Jet, DX': Jet, Y: Jet, Y': Jet, DY: Jet, DY': Jet)
    requires Lawful(F) && Twins(X, X', DX, DX') && Twins(Y, Y', DY, DY')
    ensures Twins(JetBinary(F, c, X, Y), JetBinary(F, c, X', Y'),
                  DerivBinary(F, c, JetBinary(F, c, X', Y'), X', DX, Y', DY),
                  DerivBinary(F, c, JetBinary(F, c, X, Y), X, DX', Y, DY'))
  {
    match c
    case PLUS =>
    case MINUS =>
    case TIMES => TwinsTimes(F, X, X', DX, DX', Y, Y', DY, DY');
    case DIVIDE => TwinsDivide(F, X, X', DX, DX', Y, Y', DY, DY');
    case POWER => TwinsPower(F, X, X', DX, DX', Y, Y', DY, DY');
  }

  lemma TwinsTimes(F: Funs, X: Jet, X': Jet, DX: Jet, DX': Jet, Y: Jet, Y': Jet, DY: Jet, DY': Jet)
    requires Lawful(F) && Twins(X, X', DX, DX') && Twins(Y, Y', DY, DY')
    ensures Twins(JetBinary(F, TIMES, X, Y), JetBinary(F, TIMES, X', Y'),
                  DerivBinary(F, TIMES, JetBinary(F, TIMES, X', Y'), X', DX, Y', DY),
                  DerivBinary(F, TIMES, JetBinary(F, TIMES, X, Y), X, DX', Y, DY'))
  {
    if X.d.Some? && Y.d.Some? {
      Swaps(X.d.value, Y'.d.value);
      Swaps(X'.d.value, Y.d.value);
    }
  }

  lemma TwinsDivide(F: Funs, X: Jet, X': Jet, DX: Jet, DX': Jet, Y: Jet, Y': Jet, DY: Jet, DY': Jet)
    requires Lawful(F) && Twins(X, X', DX, DX') && Twins(Y, Y', DY, DY')
    ensures Twins(JetBinary(F, DIVIDE, X, Y), JetBinary(F, DIVIDE, X', Y'),
                  DerivBinary(F, DIVIDE, JetBinary(F, DIVIDE, X', Y'), X', DX, Y', DY),
                  DerivBinary(F, DIVIDE, JetBinary(F, DIVIDE, X, Y), X, DX', Y, DY'))
  {
    if Y.x.Some? && Y.x.value != 0.0 {
      var y := Y.x.value;
      MulNonZero(y);
      if X.x.Some? && X.d.Some? && Y.d.Some? && DX.d.Some? && DY.d.Some? {
        var x, mX, mY := X.x.value, DX.d.value, DY.d.value;
        var aX, bX, aY, bY := X.d.value, X'.d.value, Y.d.value, Y'.d.value;
        QuotientSwaps(aX, bX, mX, x, aY, bY, mY, y);
      }
    }
  }

  lemma QuotientSwaps(aX: real, bX: real, mX: real, x: real, aY: real, bY: real, mY: real, y: real)
    requires y != 0.0
    ensures Mul(y, y) != 0.0
    ensures QuotientSlope(Mul(aX, y) - Mul(aY, x), Mul(aX, bY) + Mul(mX, y) - (Mul(aY, bX) + Mul(mY, x)),
                          Mul(y, y), Mul(y, bY) + Mul(bY, y))
         == QuotientSlope(Mul(bX, y) - Mul(bY, x), Mul(bX, aY) + Mul(mX, y) - (Mul(bY, aX) + Mul(mY, x)),
                          Mul(y, y), Mul(y, aY) + Mul(aY, y))
  {
    MulNonZero(y);
    var s := Mul(y, y);
    var n, n' := Mul(aX, y) - Mul(aY, x), Mul(aX, bY) + Mul(mX, y) - (Mul(aY, bX) + Mul(mY, x));
    var k, k' := Mul(bX, y) - Mul(bY, x), Mul(bX, aY) + Mul(mX, y) - (Mul(bY, aX) + Mul(mY, x));
    var sb, sa := Mul(y, bY) + Mul(bY, y), Mul(y, aY) + Mul(aY, y);
    assert Mul(n', s) - Mul(sb, n) == Mul(k', s) - Mul(sa, k) by {
      Numerators(aX, bX, mX, x, aY, bY, mY, y, s, n, n', k, k');
    }
  }

  lemma Numerators(aX: real, bX: real, mX: real, x: real, aY: real, bY: real, mY: real, y: real,
                   s: real, n: real, n': real, k: real, k': real)
    requires s == y * y && n == aX * y - aY * x && n' == aX * bY + mX * y - (aY * bX + mY * x)
    requires k == bX * y - bY * x && k' == bX * aY + mX * y - (bY * aX + mY * x)
    ensures n' * s - (y * bY + bY * y) * n == k' * s - (y * aY + aY * y) * k
  {
    var e := (mX * y - mY * x) * (y * y) - (aX * bY + aY * bX) * (y * y) + 2.0 * (aY * bY) * (x * y);
    assert n' * s - (y * bY + bY * y) * n == e;
    assert k' * s - (y * aY + aY * y) * k == e;
  }

  lemma TwinsPower(F: Funs, X: Jet, X': Jet, DX: Jet, DX': Jet, Y: Jet, Y': Jet, DY: Jet, DY': Jet)
    requires Lawful(F) && Twins(X, X', DX, DX') && Twins(Y, Y', DY, DY')
    ensures Twins(JetBinary(F, POWER, X, Y), JetBinary(F, POWER, X', Y'),
                  DerivBinary(F, POWER, JetBinary(F, POWER, X', Y'), X', DX, Y', DY),
                  DerivBinary(F, POWER, JetBinary(F, POWER, X, Y), X, DX', Y, DY'))
  {
    if X.x.Some? && Y.x.Some? && X.x.value > 0.0 && X.d.Some? && Y.d.Some? {
      var x, y := X.x.value, Y.x.value;
      var aX, bX, aY, bY := X.d.value, X'.d.value, Y.d.value, Y'.d.value;
      BinaryRuleValue(F, POWER, X', DX, Y', DY, x, aX, y, aY);
      BinaryRuleValue(F, POWER, X, DX', Y, DY', x, bX, y, bY);
      if DX.d.Some? && DY.d.Some? {
        PowerDerivTangent(F, X', DX, Y', DY, x, aX, bX, DX.d.value, y, aY, bY, DY.d.value);
        PowerDerivTangent(F, X, DX', Y, DY', x, bX, aX, DX.d.value, y, bY, aY, DY.d.value);
        PowerMixedSwaps(x, aX, bX, y, aY, bY, F.pow(x, y), F.pow(x, y - 1.0), F.log(x));
      }
    }
  }

  /** The part of the mixed derivative of a power that comes from its two first derivatives. */
  ghost function PowerMixed(x: real, a: real, b: real, y: real, c: real, d: real, p: real, q: real, l: real): real
    requires x != 0.0
  {
    PowerSum(p, q, l, Div(b, x), a, y, c, d)
  }

  ghost function PowerSum(p: real, q: real, l: real, r: real, a: real, y: real, c: real, d: real): real {
    var t := Mul(p, Mul(d, l) + Mul(y, r));
    var w := Mul(q, Mul(d, l) + Mul(y - 1.0, r));
    Mul(c, Mul(p, r) + Mul(t, l)) + Mul(a, Mul(y, w) + Mul(d, q))
  }

  /** A sum of two power derivatives with the common factor p taken out. */
  ghost function PowerFactor(l: real, r: real, s: real, y: real, c: real, d: real): real {
    Mul(c, r + Mul(Mul(d, l) + Mul(y, r), l)) + Mul(s, Mul(y, Mul(d, l) + Mul(y - 1.0, r)) + d)
  }

  lemma PowerFactorSwaps(l: real, r: real, s: real, y: real, c: real, d: real)
    ensures PowerFactor(l, r, s, y, c, d) == PowerFactor(l, s, r, y, d, c)
  {
    assert c * (r + (d * l + y * r) * l) + s * (y * (d * l + (y - 1.0) * r) + d)
        == d * (s + (c * l + y * s) * l) + r * (y * (c * l + (y - 1.0) * s) + c);
  }

  lemma PowerGathers(p: real, q: real, x: real, l: real, r: real, s: real, a: real, y: real, c: real, d: real)
    requires p == Mul(q, x) && a == Mul(s, x)
    ensures PowerSum(p, q, l, r, a, y, c, d) == Mul(p, PowerFactor(l, r, s, y, c, d))
  {
    hide Mul;
    var t, w := Mul(d, l) + Mul(y, r), Mul(d, l) + Mul(y - 1.0, r);
    var head, tail := r + Mul(t, l), Mul(y, w) + d;
    assert Mul(c, Mul(p, r) + Mul(Mul(p, t), l)) == Mul(p, Mul(c, head)) by {
      MulAssociates(p, t, l);
      MulDistributes(p, r, Mul(t, l));
      MulExchanges(c, p, head);
    }
    assert Mul(a, Mul(y, Mul(q, w)) + Mul(d, q)) == Mul(p, Mul(s, tail)) by {
      MulExchanges(y, q, w);
      MulCommutes(d, q);
      MulDistributes(q, Mul(y, w), d);
      MulAssociates(s, x, Mul(q, tail));
      MulExchanges(x, q, tail);
      MulAssociates(q, x, tail);
      MulExchanges(s, p, tail);
    }
    MulDistributes(p, Mul(c, head), Mul(s, tail));
  }

  lemma PowerMixedSwaps(x: real, a: real, b: real, y: real, c: real, d: real, p: real, q: real, l: real)
    requires x > 0.0 && Mul(q, x) == p
    ensures PowerMixed(x, a, b, y, c, d, p, q, l) == PowerMixed(x, b, a, y, d, c, p, q, l)
  {
    hide Mul, Div, PowerSum, PowerFactor;
    var r, s := Div(b, x), Div(a, x);
    DivTimes(a, x);
    DivTimes(b, x);
    PowerGathers(p, q, x, l, r, s, a, y, c, d);
    PowerGathers(p, q, x, l, s, r, b, y, d, c);
    PowerFactorSwaps(l, r, s, y, c, d);
  }

  lemma DivTimes(a: real, x: real)
    requires x != 0.0
    ensures Mul(Div(a, x), x) == a
  {}

  /** The tangent of the derivative rule of a power. */
  lemma PowerDerivTangent(F: Funs, X: Jet, DX: Jet, Y: Jet, DY: Jet,
                          x: real, a: real, b: real, m: real, y: real, c: real, d: real, n: real)
    requires Lawful(F) && x > 0.0
    requires X == Jet(Some(x), Some(b)) && DX == Jet(Some(a), Some(m))
    requires Y == Jet(Some(y), Some(d)) && DY == Jet(Some(c), Some(n))
    ensures DerivBinary(F, POWER, JetBinary(F, POWER, X, Y), X, DX, Y, DY).d
         == Some(PowerMixed(x, a, b, y, c, d, F.pow(x, y), F.pow(x, y - 1.0), F.log(x))
                 + Mul(n, Mul(F.pow(x, y), F.log(x))) + Mul(m, Mul(y, F.pow(x, y - 1.0))))
  {
    var p, q, l, r := F.pow(x, y), F.pow(x, y - 1.0), F.log(x), Div(b, x);
    var t := Mul(p, Mul(d, l) + Mul(y, r));
    var w := Mul(q, Mul(d, l) + Mul(y - 1.0, r));
    assert JetBinary(F, POWER, X, Y) == Jet(Some(p), Some(t));
    var log := JetBinary(F, TIMES, Jet(Some(p), Some(t)), JetUnary(F, LOG, X));
    assert log == Jet(Some(Mul(p, l)), Some(Mul(p, r) + Mul(t, l)));
    var less := JetBinary(F, MINUS, Y, JET_ONE);
    assert less == Jet(Some(y - 1.0), Some(d));
    var power := JetBinary(F, POWER, X, less);
    assert power == Jet(Some(q), Some(w));
    var base := JetBinary(F, TIMES, Y, power);
    assert base == Jet(Some(Mul(y, q)), Some(Mul(y, w) + Mul(d, q)));
    assert JetBinary(F, TIMES, DY, log).d == Some(Mul(c, Mul(p, r) + Mul(t, l)) + Mul(n, Mul(p, l)));
    assert JetBinary(F, TIMES, DX, base).d == Some(Mul(a, Mul(y, w) + Mul(d, q)) + Mul(m, Mul(y, q)));
  }

  // ----- the theorems about built terms -----

  /** The term built for the derivative of t by u has the tangent of t in direction u as its
      value, wherever that tangent is defined. */
  lemma BuiltDerivativeIsTangent(F: Funs, terms: seq<Operation>, p: Point, val: map<nat, real>, u: nat, t: nat, r: nat)
    requires Lawful(F) && Represents(terms, u, By(t), r) && t < |terms| && u >= NUM_CONSTANTS && HasValues(p, val)
    requires Eval(F, terms, At(val, u), t).d.Some?
    ensures Eval(F, terms, p, r).x == Eval(F, terms, At(val, u), t).d
  {
    DerivIsTangent(F, terms, p, val, u, t);
    assert Refines(ExprJet(F, terms, p, u, By(t)), Eval(F, terms, p, r));
  }

  /** Differentiating by u and then by v, or by v and then by u, gives terms of equal value
      wherever the mixed derivative is defined, although the terms may differ. */
  lemma MixedPartialsAgree(F: Funs, terms: seq<Operation>, p: Point, val: map<nat, real>, u: nat, v: nat, t: nat,
                           du: nat, dv: nat, duv: nat, dvu: nat)
    requires Lawful(F) && t < |terms| && u >= NUM_CONSTANTS && v >= NUM_CONSTANTS && HasValues(p, val)
    requires Represents(terms, u, By(t), du) && Represents(terms, v, By(du), duv)
    requires Represents(terms, v, By(t), dv) && Represents(terms, u, By(dv), dvu)
    requires Deriv(F, terms, At(val, v), u, t).d.Some?
    ensures Eval(F, terms, p, duv).x == Eval(F, terms, p, dvu).x == Deriv(F, terms, At(val, v), u, t).d
  {
    MixedDerivativesAreTwins(F, terms, val, u, v, t);
    assert Refines(ExprJet(F, terms, At(val, v), u, By(t)), Eval(F, terms, At(val, v), du));
    BuiltDerivativeIsTangent(F, terms, p, val, v, du, duv);
    assert Refines(ExprJet(F, terms, At(val, u), v, By(t)), Eval(F, terms, At(val, u), dv));
    BuiltDerivativeIsTangent(F, terms, p, val, u, dv, dvu);
  }
}
