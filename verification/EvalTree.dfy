/** The memoised, short-circuiting evaluator of an operation tree. */
module EvalTrees {
  import opened Wrappers
  import opened Reals
  import opened Jets
  import opened Terms
  import opened OperationTrees

  /** Machine numbers.  Rounding and the sign of zero are not modelled. */
  datatype Double = Finite(r: real) | PosInf | NegInf | NotANumber

  const D_ZERO := Finite(0.0)
  const D_ONE := Finite(1.0)

  /** The arithmetic of the machine: any total functions on machine numbers. */
  datatype Machine = Machine(unary: (UnaryCode, Double) -> Double,
                             binary: (BinaryCode, Double, Double) -> Double,
                             twoOverPi: Double)

  /** On finite arguments inside its domain the machine computes the real functions. */
  ghost predicate Sane(m: Machine, F: Funs) {
    && m.twoOverPi == Finite(F.twoOverPi)
    && (forall c: UnaryCode, x: real :: UnaryValue(F, c, x).Some? ==> m.unary(c, Finite(x)) == Finite(UnaryValue(F, c, x).value))
    && (forall c: BinaryCode, x: real, y: real :: BinaryValue(F, c, x, y).Some? ==>
          m.binary(c, Finite(x), Finite(y)) == Finite(BinaryValue(F, c, x, y).value))
  }

  function LeafValue(m: Machine, env: map<nat, Double>, t: nat): Option<Double> {
    if t == ZERO then Some(D_ZERO)
    else if t == ONE then Some(D_ONE)
    else if t == NAN then Some(NotANumber)
    else if t == TWO_OVER_PI then Some(m.twoOverPi)
    else if t in env then Some(env[t])
    else None
  }

  /** Plain short-circuit evaluation; None when a leaf without a value is needed. */
  function Lazy(m: Machine, terms: seq<Operation>, env: map<nat, Double>, t: nat): Option<Double>
    requires WellFormed(terms) && t < |terms|
    decreases t
  {
    assert OperandsBelow(terms[t], t);
    match terms[t]
    case Nulary => LeafValue(m, env, t)
    case Unary(c, a) =>
      var r1 := Lazy(m, terms, env, a);
      if r1 == None then None else Some(m.unary(c, r1.value))
    case Binary(c, a, b) => LazyBinary(m, c, Lazy(m, terms, env, a), Lazy(m, terms, env, b),
                                       |Leaves(terms, a)| < |Leaves(terms, b)|)
  }

  /** The value of a binary operation: a product looks at the operand with fewer leaves
      first, a quotient at its numerator, a power at its exponent. */
  function LazyBinary(m: Machine, c: BinaryCode, r1: Option<Double>, r2: Option<Double>, firstIsSimpler: bool): Option<Double> {
    var first := if c == POWER || (c == TIMES && !firstIsSimpler) then r2 else r1;
    if first == None then None
    else if first.value == D_ZERO && c in {TIMES, DIVIDE} then Some(D_ZERO)
    else if first.value == D_ZERO && c == POWER then Some(D_ONE)
    else if r1 == None || r2 == None then None
    else Some(m.binary(c, r1.value, r2.value))
  }

  class EvalTree {
    const otree: OperationTree
    const m: Machine
    const lastOperation: nat
    const values: array<Double>
    const flags: array<bool>
    /** The leaves that have been given a value since the last reset. */
    ghost var env: map<nat, Double>

    ghost predicate Valid()
      reads this, otree, values, flags
    {
      && otree.Shape()
      && NUM_CONSTANTS <= lastOperation + 1 <= |otree.terms|
      && values.Length == flags.Length == lastOperation + 1
      && (forall t: nat :: t < NUM_CONSTANTS ==> flags[t] && Some(values[t]) == LeafValue(m, env, t))
      && (forall t: nat :: NUM_CONSTANTS <= t <= lastOperation && otree.terms[t] == Nulary ==>
            (flags[t] <==> t in env) && (flags[t] ==> values[t] == env[t]))
      && (forall t :: t in env ==> NUM_CONSTANTS <= t <= lastOperation && otree.terms[t] == Nulary)
    }

    /** Every cached value is the value plain evaluation gives. */
    ghost predicate Coherent()
      reads this, otree, values, flags
      requires Valid()
    {
      forall t: nat :: t <= lastOperation && flags[t] ==> Lazy(m, otree.terms, env, t) == Some(values[t])
    }

    constructor (ot: OperationTree, machine: Machine, last: nat)
      requires ot.Shape() && TWO_OVER_PI <= last < |ot.terms|
      ensures Valid() && Coherent() && env == map[]
      ensures otree == ot && m == machine && lastOperation == last && fresh(values) && fresh(flags)
    {
      otree, m, lastOperation := ot, machine, last;
      values := new Double[last + 1](_ => D_ZERO);
      flags := new bool[last + 1](i => i < NUM_CONSTANTS);
      env := map[];
      new;
      values[ONE] := D_ONE;
      values[NAN] := NotANumber;
      values[TWO_OVER_PI] := m.twoOverPi;
    }

    /** A new evaluator for the terms up to last, or for all when last is -1; fails exactly
        when last leaves out a special term or lies outside of the tree. */
    static method Create(ot: OperationTree, machine: Machine, last: int) returns (r: Option<EvalTree>)
      requires ot.Shape()
      ensures r.Some? <==> last == -1 || TWO_OVER_PI <= last < |ot.terms|
      ensures r.Some? ==> fresh(r.value) && r.value.Valid() && r.value.Coherent() && r.value.env == map[]
      ensures r.Some? ==> r.value.lastOperation == if last == -1 then |ot.terms| - 1 else last
    {
      var lastOperation := if last == -1 then |ot.terms| - 1 else last;
      if lastOperation < TWO_OVER_PI || lastOperation > |ot.terms| - 1 {
        return None;
      }
      var e := new EvalTree(ot, machine, lastOperation);
      r := Some(e);
    }

    method ResetAll()
      requires Valid()
      modifies this`env, flags
      ensures Valid() && Coherent() && env == map[]
    {
      env := map[];
      for i: nat := NUM_CONSTANTS to lastOperation + 1
        invariant env == map[]
        invariant forall t: nat :: t < NUM_CONSTANTS ==> flags[t]
        invariant forall t: nat :: NUM_CONSTANTS <= t < i ==> !flags[t]
      {
        flags[i] := false;
      }
    }

    /** Gives a leaf its value.  The cache stays coherent when the leaf had no value yet or
        no cached term depends on it. */
    method SetNulary(t: int, val: Double) returns (ok: bool)
      requires Valid()
      modifies this`env, values, flags
      ensures Valid()
      ensures ok <==> NUM_CONSTANTS <= t <= lastOperation && otree.terms[t] == Nulary
      ensures env == if ok then old(env)[t as nat := val] else old(env)
      ensures ok && old(Coherent()) && (t !in old(env) || old(NoDependents(t as nat))) ==> Coherent()
      ensures !ok ==> values[..] == old(values[..]) && flags[..] == old(flags[..])
    {
      if t < 0 || t > lastOperation {
        return false;
      }
      if t < NUM_CONSTANTS || otree.terms[t] != Nulary {
        return false;
      }
      ghost var before := env;
      env := env[t := val];
      values[t] := val;
      flags[t] := true;
      ok := true;
      forall n: nat | n <= lastOperation && flags[n] && old(Coherent()) && (t !in before || old(NoDependents(t)))
        ensures Lazy(m, otree.terms, env, n) == Some(values[n])
      {
        if n != t {
          if t !in before {
            LazyMonotone(m, otree.terms, before, t, val, n);
          } else {
            LazyIndependent(m, otree.terms, before, t, val, n);
          }
        }
      }
    }

    /** No cached term other than t itself has the leaf t. */
    ghost predicate NoDependents(t: nat)
      reads this, otree, flags, values
      requires Valid()
    {
      forall n: nat :: n <= lastOperation && flags[n] && n != t ==> t !in Leaves(otree.terms, n)
    }

    /** Evaluates a term; fails on an index out of bounds or when a leaf without a value is needed. */
    method Eval(t: int) returns (r: Option<Double>)
      requires Valid() && Coherent()
      modifies values, flags
      ensures Valid() && Coherent()
      ensures r == if 0 <= t <= lastOperation then Lazy(m, otree.terms, env, t) else None
    {
      if t < 0 || t > lastOperation {
        return None;
      }
      r := EvalTerm(t);
    }

    method EvalTerm(t: nat) returns (r: Option<Double>)
      requires Valid() && Coherent() && t <= lastOperation
      modifies values, flags
      ensures Valid() && Coherent()
      ensures r == Lazy(m, otree.terms, env, t)
      decreases t
    {
      if flags[t] {
        return Some(values[t]);
      }
      assert OperandsBelow(otree.terms[t], t);
      match otree.terms[t]
      case Nulary =>
        return None;
      case Unary(c, a) =>
        var r1 := EvalTerm(a);
        if r1 == None { return None; }
        r := Some(m.unary(c, r1.value));
        Store(t, r.value);
      case Binary(c, a, b) =>
        r := EvalBinary(t, c, a, b);
        if r == None { return None; }
        Store(t, r.value);
    }

    method Store(t: nat, res: Double)
      requires Valid() && Coherent() && t <= lastOperation && otree.terms[t] != Nulary
      requires Lazy(m, otree.terms, env, t) == Some(res)
      modifies values, flags
      ensures Valid() && Coherent()
    {
      values[t] := res;
      flags[t] := true;
    }

    method EvalBinary(t: nat, c: BinaryCode, a: nat, b: nat) returns (r: Option<Double>)
      requires Valid() && Coherent() && a < t <= lastOperation && b < t && otree.terms[t] == Binary(c, a, b)
      modifies values, flags
      ensures Valid() && Coherent()
      ensures r == Lazy(m, otree.terms, env, t)
      decreases t, 0
    {
      var firstIsB := c == POWER || (c == TIMES && |otree.nulIncidence[a]| >= |otree.nulIncidence[b]|);
      var first := EvalTerm(if firstIsB then b else a);
      if first == None { return None; }
      if first.value == D_ZERO && (c == TIMES || c == DIVIDE) { return Some(D_ZERO); }
      if first.value == D_ZERO && c == POWER { return Some(D_ONE); }
      var second := EvalTerm(if firstIsB then a else b);
      if second == None { return None; }
      return Some(if firstIsB then m.binary(c, second.value, first.value) else m.binary(c, first.value, second.value));
    }
  }

  /** A value for a leaf without one changes no term that could be evaluated. */
  lemma {:induction false} LazyMonotone(m: Machine, terms: seq<Operation>, env: map<nat, Double>, t: nat, val: Double, n: nat)
    requires WellFormed(terms) && n < |terms| && t !in env && Lazy(m, terms, env, n).Some?
    ensures Lazy(m, terms, env[t := val], n) == Lazy(m, terms, env, n)
    decreases n
  {
    assert OperandsBelow(terms[n], n);
    match terms[n]
    case Nulary =>
    case Unary(c, a) => LazyMonotone(m, terms, env, t, val, a);
    case Binary(c, a, b) =>
      if Lazy(m, terms, env, a).Some? { LazyMonotone(m, terms, env, t, val, a); }
      if Lazy(m, terms, env, b).Some? { LazyMonotone(m, terms, env, t, val, b); }
  }

  /** A term does not depend on leaves it does not have. */
  lemma {:induction false} LazyIndependent(m: Machine, terms: seq<Operation>, env: map<nat, Double>, t: nat, val: Double, n: nat)
    requires WellFormed(terms) && n < |terms| && t !in Leaves(terms, n)
    ensures Lazy(m, terms, env[t := val], n) == Lazy(m, terms, env, n)
    decreases n
  {
    assert OperandsBelow(terms[n], n);
    match terms[n]
    case Nulary =>
    case Unary(c, a) => LazyIndependent(m, terms, env, t, val, a);
    case Binary(c, a, b) =>
      LazyIndependent(m, terms, env, t, val, a);
      LazyIndependent(m, terms, env, t, val, b);
  }

  /** The assigned values agree with a point wherever the point has values. */
  ghost predicate Assigns(env: map<nat, Double>, p: Point) {
    forall t :: t in p && p[t].x.Some? ==> t in env && env[t] == Finite(p[t].x.value)
  }

  /** Wherever the strict real meaning of a term is defined, evaluation returns it. */
  lemma {:induction false} LazyRefinesStrict(F: Funs, m: Machine, terms: seq<Operation>, p: Point, env: map<nat, Double>, t: nat)
    requires Lawful(F) && Sane(m, F) && WellFormed(terms) && t < |terms| && Assigns(env, p)
    requires Eval(F, terms, p, t).x.Some?
    ensures Lazy(m, terms, env, t) == Some(Finite(Eval(F, terms, p, t).x.value))
    decreases t
  {
    assert OperandsBelow(terms[t], t);
    match terms[t]
    case Nulary =>
    case Unary(c, a) => LazyRefinesStrict(F, m, terms, p, env, a);
    case Binary(c, a, b) =>
      LazyRefinesStrict(F, m, terms, p, env, a);
      LazyRefinesStrict(F, m, terms, p, env, b);
      var x, y := Eval(F, terms, p, a).x.value, Eval(F, terms, p, b).x.value;
      ShortCircuits(F, c, x, y);
  }

  lemma ShortCircuits(F: Funs, c: BinaryCode, x: real, y: real)
    requires Lawful(F) && BinaryValue(F, c, x, y).Some?
    ensures c == TIMES && (x == 0.0 || y == 0.0) ==> BinaryValue(F, c, x, y) == Some(0.0)
    ensures c == DIVIDE && x == 0.0 ==> BinaryValue(F, c, x, y) == Some(0.0)
    ensures c == POWER && y == 0.0 ==> BinaryValue(F, c, x, y) == Some(1.0)
  {}

  /** The whole pipeline: a term that represents an expression evaluates to the value of
      the expression wherever that is defined. */
  lemma EvaluatesAsWritten(F: Funs, m: Machine, terms: seq<Operation>, p: Point, env: map<nat, Double>,
                           u: nat, e: Expr, r: nat)
    requires Lawful(F) && Sane(m, F) && Represents(terms, u, e, r) && Assigns(env, p)
    requires ExprJet(F, terms, p, u, e).x.Some?
    ensures Lazy(m, terms, env, r) == Some(Finite(ExprJet(F, terms, p, u, e).x.value))
  {
    assert Refines(ExprJet(F, terms, p, u, e), Eval(F, terms, p, r));
    LazyRefinesStrict(F, m, terms, p, env, r);
  }

  // ----- what is evaluated, operation by operation -----

  /** The operand that may decide an operation on its own: of a product the one with fewer leaves, the second one if there are
      as many, of a quotient the numerator, of a power the exponent. */
  ghost function Decider(terms: seq<Operation>, t: nat): Option<nat>
    requires WellFormed(terms) && t < |terms|
  {
    assert OperandsBelow(terms[t], t);
    match terms[t]
    case Binary(c, a, b) =>
      if c == TIMES then Some(if |Leaves(terms, a)| < |Leaves(terms, b)| then a else b)
      else if c == DIVIDE then Some(a)
      else if c == POWER then Some(b)
      else None
    case _ => None
  }

  /** The deciding operand evaluates to zero. */
  ghost predicate CutShort(m: Machine, terms: seq<Operation>, env: map<nat, Double>, t: nat)
    requires WellFormed(terms) && t < |terms|
  {
    Decider(terms, t).Some? && Decider(terms, t).value < |terms| && Lazy(m, terms, env, Decider(terms, t).value) == Some(D_ZERO)
  }

  /** Evaluation without short circuits: the operation of the machine on the values of all operands. */
  function Plain(m: Machine, terms: seq<Operation>, env: map<nat, Double>, t: nat): Option<Double>
    requires WellFormed(terms) && t < |terms|
    decreases t
  {
    assert OperandsBelow(terms[t], t);
    match terms[t]
    case Nulary => LeafValue(m, env, t)
    case Unary(c, a) =>
      var x := Plain(m, terms, env, a);
      if x == None then None else Some(m.unary(c, x.value))
    case Binary(c, a, b) =>
      var x, y := Plain(m, terms, env, a), Plain(m, terms, env, b);
      if x == None || y == None then None else Some(m.binary(c, x.value, y.value))
  }

  /** On all machine numbers: an operation that is cut short is zero, or one for a power; any other one is the operation of the
      machine on the values of its operands, and has a value only when both have. */
  lemma EvaluatesOperation(m: Machine, terms: seq<Operation>, env: map<nat, Double>, t: nat)
    requires WellFormed(terms) && t < |terms|
    ensures match terms[t]
      case Nulary => true
      case Unary(c, a) =>
        var x := Lazy(m, terms, env, a);
        Lazy(m, terms, env, t) == if x.Some? then Some(m.unary(c, x.value)) else None
      case Binary(c, a, b) =>
        var x, y := Lazy(m, terms, env, a), Lazy(m, terms, env, b);
        Lazy(m, terms, env, t) == if CutShort(m, terms, env, t) then Some(if c == POWER then D_ONE else D_ZERO)
          else if x.Some? && y.Some? then Some(m.binary(c, x.value, y.value)) else None
  {
    assert OperandsBelow(terms[t], t);
  }

  /** No operation inside the term is cut short. */
  ghost predicate NothingCut(m: Machine, terms: seq<Operation>, env: map<nat, Double>, t: nat)
    requires WellFormed(terms) && t < |terms|
    decreases t
  {
    assert OperandsBelow(terms[t], t);
    !CutShort(m, terms, env, t) &&
    match terms[t]
    case Nulary => true
    case Unary(_, a) => NothingCut(m, terms, env, a)
    case Binary(_, a, b) => NothingCut(m, terms, env, a) && NothingCut(m, terms, env, b)
  }

  /** Without a short circuit inside, evaluation is plain, infinities and NaN included. */
  lemma {:induction false} LazyIsPlain(m: Machine, terms: seq<Operation>, env: map<nat, Double>, t: nat)
    requires WellFormed(terms) && t < |terms| && NothingCut(m, terms, env, t)
    ensures Lazy(m, terms, env, t) == Plain(m, terms, env, t)
    decreases t
  {
    hide CutShort;
    EvaluatesOperation(m, terms, env, t);
    match terms[t]
    case Nulary =>
    case Unary(_, a) => LazyIsPlain(m, terms, env, a);
    case Binary(_, a, b) => LazyIsPlain(m, terms, env, a); LazyIsPlain(m, terms, env, b);
  }

  /** The machine's powers with natural exponents are products, for negative bases too. */
  ghost predicate NaturalPowers(m: Machine) {
    forall x: real, n: nat :: n > 0 ==> m.binary(POWER, Finite(x), Finite(n as real)) == Finite(RealPower(x, n))
  }

  /** A power with a natural exponent evaluates to the product, whatever the sign of its base. */
  lemma NaturalPower(m: Machine, terms: seq<Operation>, env: map<nat, Double>, t: nat, x: real, n: nat)
    requires NaturalPowers(m) && WellFormed(terms) && t < |terms| && terms[t].Binary? && terms[t].bcode == POWER
    requires terms[t].op1 < t && terms[t].op2 < t
    requires Lazy(m, terms, env, terms[t].op1) == Some(Finite(x)) && Lazy(m, terms, env, terms[t].op2) == Some(Finite(n as real))
    ensures Lazy(m, terms, env, t) == Some(Finite(RealPower(x, n)))
  {
    EvaluatesOperation(m, terms, env, t);
    if n > 0 {
      assert m.binary(POWER, Finite(x), Finite(n as real)) == Finite(RealPower(x, n));
    }
  }

  /** x^2 at minus two is four. */
  lemma NegativeBase(m: Machine)
    requires NaturalPowers(m)
    ensures var terms := [Nulary, Nulary, Nulary, Nulary, Nulary, Nulary, Binary(POWER, 4, 5)];
            WellFormed(terms) && Lazy(m, terms, map[4 := Finite(-2.0), 5 := Finite(2.0)], 6) == Some(Finite(4.0))
  {
    var terms := [Nulary, Nulary, Nulary, Nulary, Nulary, Nulary, Binary(POWER, 4, 5)];
    assert WellFormed(terms);
    NaturalPower(m, terms, map[4 := Finite(-2.0), 5 := Finite(2.0)], 6, -2.0, 2);
    assert RealPower(-2.0, 2) == Mul(-2.0, RealPower(-2.0, 1)) && RealPower(-2.0, 1) == Mul(-2.0, RealPower(-2.0, 0));
  }

  // ----- where simplification and evaluation disagree -----

  /** The machine's powers of zero and its quotients of numbers that are not finite, as the C library has them. */
  ghost predicate LibraryLike(m: Machine) {
    && (forall y: real :: y > 0.0 ==> m.binary(POWER, D_ZERO, Finite(y)) == D_ZERO)
    && (forall y: real :: y < 0.0 ==> m.binary(POWER, D_ZERO, Finite(y)) == PosInf)
    && (forall x: Double :: !x.Finite? ==> m.binary(DIVIDE, x, x) == NotANumber)
  }

  /** What evaluating the operation without any simplification would give. */
  function Unsimplified(m: Machine, terms: seq<Operation>, env: map<nat, Double>, c: BinaryCode, a: nat, b: nat): Option<Double>
    requires WellFormed(terms) && a < |terms| && b < |terms|
  {
    LazyBinary(m, c, Lazy(m, terms, env, a), Lazy(m, terms, env, b), |Leaves(terms, a)| < |Leaves(terms, b)|)
  }

  /** The simplification of a power of zero agrees with the evaluator exactly for positive exponents: the
      evaluator gives 0^0 = 1 and an infinite value for a negative exponent. */
  lemma PowerOfZero(m: Machine, terms: seq<Operation>, env: map<nat, Double>, b: nat, y: real)
    requires LibraryLike(m) && WellFormed(terms) && b < |terms| && Lazy(m, terms, env, b) == Some(Finite(y))
    ensures QuickBinary(POWER, ZERO, b).Some? && QuickBinary(POWER, ZERO, b).value < |terms|
    ensures Lazy(m, terms, env, QuickBinary(POWER, ZERO, b).value) == Unsimplified(m, terms, env, POWER, ZERO, b) <==> y > 0.0
  {
    var built := QuickBinary(POWER, ZERO, b).value;
    assert NAN < |terms| && Lazy(m, terms, env, NAN) == Some(NotANumber);
    assert built == if b == ZERO then NAN else ZERO;
    assert Lazy(m, terms, env, built) == Some(if b == ZERO then NotANumber else D_ZERO);
    var plain := if y == 0.0 then D_ONE else m.binary(POWER, D_ZERO, Finite(y));
    assert Unsimplified(m, terms, env, POWER, ZERO, b) == Some(plain);
    assert y > 0.0 ==> b != ZERO;
  }

  /** The simplification of a term over itself agrees with the evaluator exactly for finite values other than zero, and
      for the NaN term itself. */
  lemma QuotientBySelf(m: Machine, F: Funs, terms: seq<Operation>, env: map<nat, Double>, a: nat, x: Double)
    requires Sane(m, F) && LibraryLike(m) && WellFormed(terms) && a < |terms| && Lazy(m, terms, env, a) == Some(x)
    ensures QuickBinary(DIVIDE, a, a).Some? && QuickBinary(DIVIDE, a, a).value < |terms|
    ensures Lazy(m, terms, env, QuickBinary(DIVIDE, a, a).value) == Unsimplified(m, terms, env, DIVIDE, a, a) <==>
      (x.Finite? && x.r != 0.0) || a == NAN
  {
    var built := QuickBinary(DIVIDE, a, a).value;
    assert built == if a == NAN then NAN else ONE;
    assert Lazy(m, terms, env, built) == Some(if a == NAN then NotANumber else D_ONE);
    assert a == NAN ==> x == NotANumber;
    if x.Finite? && x.r != 0.0 {
      SelfOver(x.r);
      assert BinaryValue(F, DIVIDE, x.r, x.r) == Some(1.0);
    }
  }

  /** Both disagreements at a leaf with the value zero: 0^x is built as 0 and evaluates to 1, x/x is built as 1
      and evaluates to 0. */
  lemma DisagreeAtZero(m: Machine)
    ensures var terms := [Nulary, Nulary, Nulary, Nulary, Nulary];
            && WellFormed(terms)
            && QuickBinary(POWER, ZERO, 4) == Some(ZERO) && QuickBinary(DIVIDE, 4, 4) == Some(ONE)
            && Lazy(m, terms, map[4 := D_ZERO], ZERO) == Some(D_ZERO) && Unsimplified(m, terms, map[4 := D_ZERO], POWER, ZERO, 4) == Some(D_ONE)
            && Lazy(m, terms, map[4 := D_ZERO], ONE) == Some(D_ONE) && Unsimplified(m, terms, map[4 := D_ZERO], DIVIDE, 4, 4) == Some(D_ZERO)
  {
    var terms := [Nulary, Nulary, Nulary, Nulary, Nulary];
    assert WellFormed(terms);
    assert Lazy(m, terms, map[4 := D_ZERO], 4) == Some(D_ZERO);
  }

  /** Changing the value of a leaf behind a cached term breaks coherence: with x = 1 and -x
      cached as -1, setting x to 2 makes plain evaluation give -2. */
  lemma StaleCache(m: Machine, F: Funs)
    requires Sane(m, F)
    ensures var terms := [Nulary, Nulary, Nulary, Nulary, Nulary, Unary(UMINUS, 4)];
            && WellFormed(terms)
            && Lazy(m, terms, map[4 := Finite(1.0)], 5) == Some(Finite(-1.0))
            && Lazy(m, terms, map[4 := Finite(2.0)], 5) == Some(Finite(-2.0))
  {
    var terms := [Nulary, Nulary, Nulary, Nulary, Nulary, Unary(UMINUS, 4)];
    assert WellFormed(terms);
    assert UnaryValue(F, UMINUS, 1.0) == Some(-1.0) && UnaryValue(F, UMINUS, 2.0) == Some(-2.0);
    assert Lazy(m, terms, map[4 := Finite(1.0)], 4) == Some(Finite(1.0));
    assert Lazy(m, terms, map[4 := Finite(2.0)], 4) == Some(Finite(2.0));
  }
}
