/** The hash-consed, locally simplified DAG of terms, with its incidence cache and
    its derivative cache. */
module OperationTrees {
  import opened Wrappers
  import opened Jets
  import opened Terms
  import opened DerivativeRules

  /** opmap is exactly the inverse of the terms that are not leaves. */
  ghost predicate Consed(terms: seq<Operation>, opmap: map<Operation, nat>) {
    && (forall t :: 0 <= t < |terms| && terms[t] != Nulary ==> terms[t] in opmap && opmap[terms[t]] == t)
    && (forall op :: op in opmap ==> op != Nulary && opmap[op] < |terms| && terms[opmap[op]] == op)
  }

  /** The incidence of every term is the set of leaves it is built from. */
  ghost predicate Incident(terms: seq<Operation>, nul: seq<set<nat>>)
    requires WellFormed(terms)
  {
    |nul| == |terms| && forall t :: 0 <= t < |terms| ==> nul[t] == Leaves(terms, t)
  }

  /** No stored operation could have been simplified. */
  ghost predicate Reduced(terms: seq<Operation>) {
    forall t :: 0 <= t < |terms| ==> Irreducible(terms[t])
  }

  /** Every cached derivative represents the derivative of its term. */
  ghost predicate CacheSound(terms: seq<Operation>, ders: seq<map<nat, nat>>) {
    && |ders| == |terms|
    && forall t: nat, v: nat :: t < |terms| && v in ders[t] ==> Represents(terms, v, By(t), ders[t][v])
  }

  /** The parts of a tree that building and differentiating change. */
  datatype Snapshot = Snapshot(terms: seq<Operation>, nul: seq<set<nat>>, ders: seq<map<nat, nat>>)

  /** Terms have been added, nothing else has changed. */
  ghost predicate Adds(a: Snapshot, b: Snapshot) {
    a.terms <= b.terms && a.nul <= b.nul && a.ders <= b.ders
  }

  /** Terms have been added and derivatives have been registered, nothing has been overwritten. */
  ghost predicate Grows(a: Snapshot, b: Snapshot) {
    && a.terms <= b.terms && a.nul <= b.nul && |a.ders| <= |b.ders|
    && forall t: nat, v: nat :: t < |a.ders| && v in a.ders[t] ==> v in b.ders[t] && b.ders[t][v] == a.ders[t][v]
  }

  /** The derivative of t with respect to v that a tree holds ready: a shortcut or a cached result. */
  function KnownIn(s: Snapshot, t: nat, v: nat): Option<nat> {
    if t >= |s.terms| || t >= |s.nul| || t >= |s.ders| then None
    else if s.terms[t] == Nulary then Some(if t == v then ONE else ZERO)
    else if v !in s.nul[t] then Some(ZERO)
    else if v in s.ders[t] then Some(s.ders[t][v])
    else None
  }

  lemma KnownGrows(a: Snapshot, b: Snapshot, t: nat, v: nat)
    requires Grows(a, b) && KnownIn(a, t, v).Some?
    ensures KnownIn(b, t, v) == KnownIn(a, t, v)
  {}

  lemma AddsKeepsTerms(a: Snapshot, b: Snapshot)
    requires Adds(a, b)
    ensures |a.terms| <= |b.terms| && forall t :: 0 <= t < |a.terms| ==> b.terms[t] == a.terms[t]
  {}

  lemma GrowsTrans(a: Snapshot, b: Snapshot, c: Snapshot)
    requires Grows(a, b) && Grows(b, c)
    ensures Grows(a, c)
  {}

  lemma CacheSoundGrows(terms: seq<Operation>, ders: seq<map<nat, nat>>, more: seq<Operation>)
    requires WellFormed(terms) && WellFormed(more) && terms <= more && CacheSound(terms, ders)
    ensures forall t: nat, v: nat :: t < |terms| && v in ders[t] ==> Represents(more, v, By(t), ders[t][v])
  {
    AllRepresentsGrow(terms, more);
  }

  /** The operation that is stored for code applied to op1 and op2 when no quick exit applies. */
  function Stored(code: BinaryCode, op1: nat, op2: nat): Operation {
    if code == MINUS && op1 == ZERO then Unary(UMINUS, op2) else Ordered(code, op1, op2)
  }

  /** Term r is what the tree gives for code applied to a and b. */
  ghost predicate StoredAs(terms: seq<Operation>, code: BinaryCode, a: nat, b: nat, r: nat) {
    r < |terms| && if QuickBinary(code, a, b).Some? then r == QuickBinary(code, a, b).value else terms[r] == Stored(code, a, b)
  }

  class OperationTree {
    var terms: seq<Operation>
    var opmap: map<Operation, nat>
    var nulIncidence: seq<set<nat>>
    var derivatives: seq<map<nat, nat>>
    var lastNulary: nat

    /** The DAG invariant. */
    ghost predicate Shape()
      reads this
    {
      && WellFormed(terms) && Reduced(terms)
      && Consed(terms, opmap)
      && Incident(terms, nulIncidence)
      && |derivatives| == |terms|
      && lastNulary < |terms| && terms[lastNulary] == Nulary
      && (forall t :: lastNulary < t < |terms| ==> terms[t] != Nulary)
    }

    ghost predicate CacheOk()
      reads this
    {
      WellFormed(terms) && CacheSound(terms, derivatives)
    }

    ghost predicate Valid()
      reads this
    {
      Shape() && CacheOk()
    }

    ghost function Snap(): Snapshot
      reads this
    {
      Snapshot(terms, nulIncidence, derivatives)
    }

    /** What an operation that only adds terms does to the tree. */
    twostate predicate Added()
      reads this
    {
      Adds(old(Snap()), Snap()) && (old(CacheOk()) ==> CacheOk())
    }

    constructor ()
      ensures Valid()
      ensures terms == seq(NUM_CONSTANTS, _ => Nulary)
    {
      terms := [Nulary, Nulary, Nulary, Nulary];
      opmap := map[];
      nulIncidence := [{ZERO}, {ONE}, {NAN}, {TWO_OVER_PI}];
      derivatives := [map[], map[], map[], map[]];
      lastNulary := TWO_OVER_PI;
    }

    method AddNulary() returns (op: nat)
      requires Shape()
      modifies this
      ensures Shape() && Added()
      ensures op == |old(terms)| && terms == old(terms) + [Nulary] && lastNulary == op
    {
      op := |terms|;
      Append(Nulary, {op});
      lastNulary := op;
    }

    /** Stores a new term with its incidence and an empty derivative map. */
    method Append(op: Operation, leaves: set<nat>)
      requires WellFormed(terms) && Incident(terms, nulIncidence) && |derivatives| == |terms|
      requires OperandsBelow(op, |terms|)
      requires leaves == match op
                         case Nulary => {|terms|}
                         case Unary(_, a) => nulIncidence[a]
                         case Binary(_, a, b) => nulIncidence[a] + nulIncidence[b]
      modifies this`terms, this`nulIncidence, this`derivatives
      ensures terms == old(terms) + [op]
      ensures WellFormed(terms) && Incident(terms, nulIncidence) && |derivatives| == |terms|
      ensures Added()
    {
      ghost var before := terms;
      terms := terms + [op];
      nulIncidence := nulIncidence + [leaves];
      derivatives := derivatives + [map[]];
      assert WellFormed(terms) by {
        forall t | 0 <= t < |terms| ensures OperandsBelow(terms[t], t) {
          if t < |before| { assert terms[t] == before[t]; }
        }
      }
      forall t | 0 <= t < |terms|
        ensures nulIncidence[t] == Leaves(terms, t)
      {
        if t < |before| {
          LeavesGrow(before, terms, t);
        } else {
          match op
          case Nulary =>
          case Unary(_, a) => LeavesGrow(before, terms, a);
          case Binary(_, a, b) => LeavesGrow(before, terms, a); LeavesGrow(before, terms, b);
        }
      }
      if CacheSound(before, old(derivatives)) {
        CacheSoundGrows(before, old(derivatives), terms);
      }
    }

    /** Returns the term of an operation, adding it when the tree does not have it yet. */
    method Intern(op: Operation) returns (r: nat)
      requires Shape() && op != Nulary && OperandsBelow(op, |terms|) && Irreducible(op)
      modifies this
      ensures Shape() && Added() && lastNulary == old(lastNulary)
      ensures r < |terms| && terms[r] == op
      ensures terms == if op in old(opmap) then old(terms) else old(terms) + [op]
    {
      if op in opmap {
        return opmap[op];
      }
      r := |terms|;
      var leaves := match op
        case Unary(_, a) => nulIncidence[a]
        case Binary(_, a, b) => nulIncidence[a] + nulIncidence[b];
      Append(op, leaves);
      opmap := opmap[op := r];
    }

    method AddUnary(code: UnaryCode, op: nat) returns (r: nat)
      requires Shape() && op < |terms|
      modifies this
      ensures Shape() && Added() && lastNulary == old(lastNulary)
      ensures r < |terms| && IsUnary(terms, code, op, r)
      ensures match QuickUnary(code, op)
              case Some(q) => r == q && terms == old(terms)
              case None => terms[r] == Unary(code, op) && |terms| <= |old(terms)| + 1
    {
      var quick := QuickUnary(code, op);
      if quick.Some? {
        forall F: Funs, p: Point | Lawful(F)
          ensures Refines(ExprJet(F, terms, p, 0, U(code, Of(op))), Eval(F, terms, p, quick.value))
        {
          QuickUnarySound(F, terms, p, code, op);
        }
        return quick.value;
      }
      r := Intern(Unary(code, op));
      IsUnaryStored(terms, code, op, r);
    }

    method AddBinary(code: BinaryCode, op1: nat, op2: nat) returns (r: nat)
      requires Shape() && op1 < |terms| && op2 < |terms|
      modifies this
      ensures Shape() && Added() && lastNulary == old(lastNulary)
      ensures r < |terms| && IsBinary(terms, code, op1, op2, r)
      ensures match QuickBinary(code, op1, op2)
              case Some(q) => r == q && terms == old(terms)
              case None => terms[r] == Stored(code, op1, op2) && |terms| <= |old(terms)| + 1
    {
      var quick := QuickBinary(code, op1, op2);
      if quick.Some? {
        forall F: Funs, p: Point | Lawful(F)
          ensures Refines(ExprJet(F, terms, p, 0, B(code, Of(op1), Of(op2))), Eval(F, terms, p, quick.value))
        {
          QuickBinarySound(F, terms, p, code, op1, op2);
        }
        return quick.value;
      }
      if code == MINUS && op1 == ZERO {
        r := AddUnary(UMINUS, op2);
        NegationIsMinus(terms, op2, r);
        return r;
      }
      var a, b := op1, op2;
      if (code == TIMES || code == PLUS) && a > b {
        a, b := b, a;
      }
      r := Intern(Binary(code, a, b));
      IsBinaryStored(terms, code, op1, op2, r);
    }

    /** Adds a unary operation on a term that represents e. */
    method BuildUnary(code: UnaryCode, op: nat, ghost u: nat, ghost e: Expr) returns (r: nat)
      requires Valid() && Represents(terms, u, e, op)
      modifies this
      ensures Valid() && lastNulary == old(lastNulary)
      ensures Represents(terms, u, U(code, e), r)
      ensures forall e', r' :: old(Represents(terms, u, e', r')) ==> Represents(terms, u, e', r')
      ensures forall s :: Adds(s, old(Snap())) ==> Adds(s, Snap())
    {
      ghost var before := terms;
      r := AddUnary(code, op);
      AllRepresentsGrow(before, terms);
      ComposeUnary(terms, u, code, e, op, r);
    }

    /** Adds a binary operation on terms that represent e1 and e2. */
    method BuildBinary(code: BinaryCode, op1: nat, op2: nat, ghost u: nat, ghost e1: Expr, ghost e2: Expr) returns (r: nat)
      requires Valid() && Represents(terms, u, e1, op1) && Represents(terms, u, e2, op2)
      modifies this
      ensures Valid() && lastNulary == old(lastNulary)
      ensures Represents(terms, u, B(code, e1, e2), r)
      ensures forall e', r' :: old(Represents(terms, u, e', r')) ==> Represents(terms, u, e', r')
      ensures forall s :: Adds(s, old(Snap())) ==> Adds(s, Snap())
    {
      ghost var before := terms;
      r := AddBinary(code, op1, op2);
      AllRepresentsGrow(before, terms);
      ComposeBinary(terms, u, code, e1, e2, op1, op2, r);
    }

    // ----- derivatives -----

    /** The derivative of t with respect to v that differentiation would return without
        building anything. */
    ghost function Known(t: nat, v: nat): Option<nat>
      reads this
    {
      KnownIn(Snap(), t, v)
    }

    /** Differentiates a term; fails exactly on an index outside of the tree. */
    method AddDerivative(t: nat, v: nat) returns (r: Option<nat>)
      requires Valid()
      modifies this
      ensures Valid() && Grows(old(Snap()), Snap()) && lastNulary == old(lastNulary)
      ensures r.Some? <==> t < |old(terms)|
      ensures r.Some? ==> Represents(terms, v, By(t), r.value) && Known(t, v) == r
      ensures r == None ==> unchanged(this)
    {
      if t >= |terms| {
        return None;
      }
      var d := Differentiate(t, v);
      return Some(d);
    }

    method Differentiate(t: nat, v: nat) returns (res: nat)
      requires Valid() && t < |terms|
      modifies this
      ensures Valid() && Grows(old(Snap()), Snap()) && lastNulary == old(lastNulary)
      ensures Represents(terms, v, By(t), res)
      ensures Known(t, v) == Some(res)
      ensures forall s :: t < s < |old(derivatives)| ==> derivatives[s] == old(derivatives)[s]
      decreases t, 1
    {
      if terms[t] == Nulary {
        res := if t == v then ONE else ZERO;
        return;
      }
      if v !in nulIncidence[t] {
        ZeroIsDerivative(terms, v, t);
        return ZERO;
      }
      if v in derivatives[t] {
        return derivatives[t][v];
      }
      res := DifferentiateOperation(t, v);
      hide Represents;
      RegisterDerivative(t, v, res);
    }

    method DifferentiateOperation(t: nat, v: nat) returns (res: nat)
      requires Valid() && t < |terms| && terms[t] != Nulary
      modifies this
      ensures Valid() && Grows(old(Snap()), Snap()) && lastNulary == old(lastNulary)
      ensures Represents(terms, v, By(t), res)
      ensures forall s :: t <= s < |old(derivatives)| ==> derivatives[s] == old(derivatives)[s]
      decreases t, 0
    {
      assert OperandsBelow(terms[t], t);
      ghost var s0 := Snap();
      var op := terms[t];
      if op.Unary? {
        var tmp := Differentiate(op.op1, v);
        hide Represents, Shape, CacheOk;
        ghost var s1 := Snap();
        res := ApplyUnaryRule(t, v, op.ucode, op.op1, tmp);
        GrowsTrans(s0, s1, Snap());
      } else {
        var tmp1 := Differentiate(op.op1, v);
        ghost var s1 := Snap();
        var tmp2 := Differentiate(op.op2, v);
        RepresentsGrows(s1.terms, terms, v, By(op.op1), tmp1);
        hide Represents, Shape, CacheOk;
        ghost var s2 := Snap();
        GrowsTrans(s0, s1, s2);
        res := ApplyBinaryRule(t, v, op.bcode, op.op1, op.op2, tmp1, tmp2);
        GrowsTrans(s0, s2, Snap());
      }
    }

    method RegisterDerivative(t: nat, v: nat, tder: nat)
      requires Valid() && t < |terms| && v !in derivatives[t] && Represents(terms, v, By(t), tder)
      modifies this`derivatives
      ensures Valid() && |derivatives| == |old(derivatives)|
      ensures derivatives[t] == old(derivatives)[t][v := tder]
      ensures forall s :: 0 <= s < |derivatives| && s != t ==> derivatives[s] == old(derivatives)[s]
    {
      var registered: map<nat, nat> := derivatives[t][v := tder];
      derivatives := derivatives[t := registered];
    }

    /** Builds the derivative of the unary term t from the derivative tmp of its operand. */
    method ApplyUnaryRule(t: nat, v: nat, code: UnaryCode, a: nat, tmp: nat) returns (res: nat)
      requires Valid() && a < t < |terms| && terms[t] == Unary(code, a) && Represents(terms, v, By(a), tmp)
      modifies this
      ensures Valid() && Adds(old(Snap()), Snap()) && lastNulary == old(lastNulary)
      ensures Represents(terms, v, By(t), res)
    {
      SelfRepresents(terms, v);
      ghost var before := Snap();
      assert Adds(before, before);
      hide Represents, Adds, Shape, CacheOk;
      match code {
        case UMINUS =>
          res := BuildUnary(UMINUS, tmp, v, By(a));
        case LOG =>
          res := BuildBinary(DIVIDE, tmp, a, v, By(a), Of(a));
        case EXP =>
          res := BuildBinary(TIMES, t, tmp, v, Of(t), By(a));
        case SIN =>
          var cos := BuildUnary(COS, a, v, Of(a));
          res := BuildBinary(TIMES, cos, tmp, v, U(COS, Of(a)), By(a));
        case COS =>
          var sin := BuildUnary(SIN, a, v, Of(a));
          var slope := BuildBinary(TIMES, sin, tmp, v, U(SIN, Of(a)), By(a));
          res := BuildUnary(UMINUS, slope, v, B(TIMES, U(SIN, Of(a)), By(a)));
        case TAN =>
          var cos := BuildUnary(COS, a, v, Of(a));
          var square := BuildBinary(TIMES, cos, cos, v, U(COS, Of(a)), U(COS, Of(a)));
          res := BuildBinary(DIVIDE, tmp, square, v, By(a), B(TIMES, U(COS, Of(a)), U(COS, Of(a))));
        case SQRT =>
          var twice := BuildBinary(PLUS, t, t, v, Of(t), Of(t));
          res := BuildBinary(DIVIDE, tmp, twice, v, By(a), B(PLUS, Of(t), Of(t)));
        case ERF =>
          var bell := BuildBell(a, tmp, v);
          res := BuildBinary(TIMES, TWO_OVER_PI, bell, v, Of(TWO_OVER_PI), Bell(a));
        case ERFC =>
          var bell := BuildBell(a, tmp, v);
          var erf := BuildBinary(TIMES, TWO_OVER_PI, bell, v, Of(TWO_OVER_PI), Bell(a));
          res := BuildUnary(UMINUS, erf, v, B(TIMES, Of(TWO_OVER_PI), Bell(a)));
      }
      AddsKeepsTerms(before, Snap());
      RuleIsDerivative(terms, v, t, res);
    }

    /** exp(-(a*a)) times the derivative der of a. */
    method BuildBell(a: nat, der: nat, ghost v: nat) returns (r: nat)
      requires Valid() && Represents(terms, v, By(a), der) && Represents(terms, v, Of(a), a)
      modifies this
      ensures Valid() && lastNulary == old(lastNulary)
      ensures Represents(terms, v, Bell(a), r)
      ensures forall e', r' :: old(Represents(terms, v, e', r')) ==> Represents(terms, v, e', r')
      ensures forall s :: Adds(s, old(Snap())) ==> Adds(s, Snap())
    {
      hide Represents, Adds, Shape, CacheOk;
      var tmp := BuildBinary(TIMES, a, a, v, Of(a), Of(a));
      tmp := BuildUnary(UMINUS, tmp, v, B(TIMES, Of(a), Of(a)));
      tmp := BuildUnary(EXP, tmp, v, U(UMINUS, B(TIMES, Of(a), Of(a))));
      r := BuildBinary(TIMES, tmp, der, v, U(EXP, U(UMINUS, B(TIMES, Of(a), Of(a)))), By(a));
    }

    /** Builds the derivative of the binary term t from the derivatives of its operands. */
    method ApplyBinaryRule(t: nat, v: nat, code: BinaryCode, a: nat, b: nat, tmp1: nat, tmp2: nat) returns (res: nat)
      requires Valid() && a < t < |terms| && b < t && terms[t] == Binary(code, a, b)
      requires Represents(terms, v, By(a), tmp1) && Represents(terms, v, By(b), tmp2)
      modifies this
      ensures Valid() && Adds(old(Snap()), Snap()) && lastNulary == old(lastNulary)
      ensures Represents(terms, v, By(t), res)
    {
      SelfRepresents(terms, v);
      ghost var before := Snap();
      assert Adds(before, before);
      hide Represents, Adds, Shape, CacheOk;
      match code {
        case PLUS =>
          res := BuildBinary(PLUS, tmp1, tmp2, v, By(a), By(b));
        case MINUS =>
          res := BuildBinary(MINUS, tmp1, tmp2, v, By(a), By(b));
        case TIMES =>
          var res1 := BuildBinary(TIMES, a, tmp2, v, Of(a), By(b));
          var res2 := BuildBinary(TIMES, tmp1, b, v, By(a), Of(b));
          res := BuildBinary(PLUS, res1, res2, v, B(TIMES, Of(a), By(b)), B(TIMES, By(a), Of(b)));
        case DIVIDE =>
          if tmp2 == ZERO {
            res := BuildBinary(DIVIDE, tmp1, b, v, By(a), Of(b));
            AddsKeepsTerms(before, Snap());
            ConstantDenominator(terms, v, t, res);
            return;
          }
          res := BuildQuotientRule(v, a, b, tmp1, tmp2);
        case POWER =>
          res := BuildPowerRule(t, v, a, b, tmp1, tmp2);
      }
      AddsKeepsTerms(before, Snap());
      RuleIsDerivative(terms, v, t, res);
    }

    method BuildQuotientRule(ghost v: nat, a: nat, b: nat, tmp1: nat, tmp2: nat) returns (res: nat)
      requires Valid() && Represents(terms, v, By(a), tmp1) && Represents(terms, v, By(b), tmp2)
      requires Represents(terms, v, Of(a), a) && Represents(terms, v, Of(b), b)
      modifies this
      ensures Valid() && lastNulary == old(lastNulary)
      ensures Represents(terms, v, Quotient(a, b), res)
      ensures forall s :: Adds(s, old(Snap())) ==> Adds(s, Snap())
    {
      hide Represents, Adds, Shape, CacheOk;
      var n1 := BuildBinary(TIMES, tmp1, b, v, By(a), Of(b));
      var n2 := BuildBinary(TIMES, tmp2, a, v, By(b), Of(a));
      var nom := BuildBinary(MINUS, n1, n2, v, B(TIMES, By(a), Of(b)), B(TIMES, By(b), Of(a)));
      var den := BuildBinary(TIMES, b, b, v, Of(b), Of(b));
      res := BuildBinary(DIVIDE, nom, den, v, Quotient(a, b).e1, Quotient(a, b).e2);
    }

    method BuildPowerRule(t: nat, ghost v: nat, a: nat, b: nat, tmp1: nat, tmp2: nat) returns (res: nat)
      requires Valid() && Represents(terms, v, By(a), tmp1) && Represents(terms, v, By(b), tmp2)
      requires Represents(terms, v, Of(t), t) && Represents(terms, v, Of(a), a) && Represents(terms, v, Of(b), b)
      requires Represents(terms, v, Of(ONE), ONE)
      modifies this
      ensures Valid() && lastNulary == old(lastNulary)
      ensures Represents(terms, v, B(PLUS, ExponentPart(t, a, b), BasePart(a, b)), res)
      ensures forall s :: Adds(s, old(Snap())) ==> Adds(s, Snap())
    {
      hide Represents, Adds, Shape, CacheOk;
      var log := BuildUnary(LOG, a, v, Of(a));
      var s1 := BuildBinary(TIMES, t, log, v, Of(t), ExponentPart(t, a, b).e2.e2);
      s1 := BuildBinary(TIMES, tmp2, s1, v, By(b), ExponentPart(t, a, b).e2);
      var less := BuildBinary(MINUS, b, ONE, v, Of(b), Of(ONE));
      var power := BuildBinary(POWER, a, less, v, Of(a), BasePart(a, b).e2.e2.e2);
      var s2 := BuildBinary(TIMES, b, power, v, Of(b), BasePart(a, b).e2.e2);
      s2 := BuildBinary(TIMES, tmp1, s2, v, By(a), BasePart(a, b).e2);
      res := BuildBinary(PLUS, s1, s2, v, ExponentPart(t, a, b), BasePart(a, b));
    }

    // ----- turning a term into a leaf -----

    /** Turns the term t into a leaf, in place, and repairs the incidence cache.  The
        derivative cache is left alone and may be wrong afterwards. */
    method Nularify(t: nat)
      requires Shape() && t < |terms|
      modifies this`terms, this`opmap, this`nulIncidence, this`lastNulary
      ensures Shape()
      ensures terms == old(terms)[t := Nulary]
      ensures opmap == old(opmap) - {old(terms)[t]}
      ensures lastNulary == if old(lastNulary) < t then t else old(lastNulary)
    {
      ghost var before := terms;
      opmap := opmap - {terms[t]};
      terms := terms[t := Nulary];
      if lastNulary < t {
        lastNulary := t;
      }
      assert WellFormed(terms) by {
        forall n | 0 <= n < |terms| ensures OperandsBelow(terms[n], n) {
          assert OperandsBelow(before[n], n);
        }
      }
      UpdateNulIncidenceAfterNularify(t, before);
    }

    /** One pass over the terms, rebuilding the incidence of those that reach t. */
    method UpdateNulIncidenceAfterNularify(t: nat, ghost before: seq<Operation>)
      requires WellFormed(before) && t < |before| && terms == before[t := Nulary] && WellFormed(terms)
      requires Incident(before, nulIncidence)
      modifies this`nulIncidence
      ensures Incident(terms, nulIncidence)
    {
      var updated: set<nat> := {};
      if t < NUM_CONSTANTS {
        assert terms == before;
      }
      forall n | 0 <= n < NUM_CONSTANTS
        ensures Leaves(terms, n) == {n} == Leaves(before, n)
      {
      }
      for tnode: nat := NUM_CONSTANTS to |terms|
        invariant |nulIncidence| == |terms|
        invariant forall n :: n in updated ==> n < tnode
        invariant forall n :: 0 <= n < tnode ==> nulIncidence[n] == Leaves(terms, n)
        invariant forall n :: tnode <= n < |terms| ==> nulIncidence[n] == Leaves(before, n)
        invariant forall n :: 0 <= n < tnode && n !in updated ==> Leaves(terms, n) == Leaves(before, n)
      {
        assert OperandsBelow(terms[tnode], tnode);
        match terms[tnode]
        case Binary(_, op1, op2) =>
          if op1 in updated || op2 in updated {
            nulIncidence := nulIncidence[tnode := nulIncidence[op1] + nulIncidence[op2]];
            updated := updated + {tnode};
          }
        case Unary(_, op1) =>
          if op1 in updated {
            nulIncidence := nulIncidence[tnode := nulIncidence[op1]];
            updated := updated + {tnode};
          }
        case Nulary =>
          if tnode == t {
            nulIncidence := nulIncidence[tnode := {tnode}];
            updated := updated + {tnode};
          }
      }
    }

    method ForgetDerivativeMaps()
      requires Shape()
      modifies this`derivatives
      ensures Valid()
      ensures forall t :: 0 <= t < |derivatives| ==> derivatives[t] == map[]
    {
      derivatives := seq(|derivatives|, _ => map[]);
    }

    // ----- substitution -----

    /** Adds term t of the tree other with the terms in the domain of subst replaced;
        fails exactly when other is another tree and a leaf of its own is not replaced. */
    method AddSubstitution(t: nat, subst: map<nat, nat>, other: OperationTree) returns (r: Option<nat>)
      requires Shape() && other.Shape() && t < |other.terms|
      requires forall k :: k in subst ==> subst[k] < |terms|
      modifies this
      ensures Shape() && Added() && lastNulary == old(lastNulary)
      ensures r.Some? <==> Substitutable(old(other.terms), subst, t, other == this)
      ensures r.Some? ==> r.value < |terms| && Image(old(other.terms), opmap, subst, t) == r
    {
      r := SubstituteIn(t, subst, other.terms, other == this);
    }

    /** Works on the terms the other tree had at the start: when it is this tree, it only
        grows meanwhile. */
    method SubstituteIn(t: nat, subst: map<nat, nat>, source: seq<Operation>, same: bool) returns (r: Option<nat>)
      requires Shape() && WellFormed(source) && t < |source| && (same ==> source <= terms)
      requires forall k :: k in subst ==> subst[k] < |terms|
      modifies this
      ensures Shape() && Added() && lastNulary == old(lastNulary)
      ensures r.Some? <==> Substitutable(source, subst, t, same)
      ensures r.Some? ==> r.value < |terms| && Image(source, opmap, subst, t) == r
      decreases t
    {
      hide Represents, CacheSound, Reduced, Incident, IsUnary, IsBinary, QuickUnary, QuickBinary;
      if t in subst {
        return Some(subst[t]);
      }
      assert OperandsBelow(source[t], t);
      var op := source[t];
      match op
      case Binary(code, op1, op2) => {
        var t1 := SubstituteIn(op1, subst, source, same);
        if t1 == None { return None; }
        ghost var first, firstMap := terms, opmap;
        var t2 := SubstituteIn(op2, subst, source, same);
        if t2 == None { return None; }
        ImageGrows(source, first, firstMap, terms, opmap, subst, op1);
        ghost var second, secondMap := terms, opmap;
        var res := AddBinary(code, t1.value, t2.value);
        ImageGrows(source, second, secondMap, terms, opmap, subst, op1);
        ImageGrows(source, second, secondMap, terms, opmap, subst, op2);
        r := Some(res);
      }
      case Unary(code, op1) => {
        var t1 := SubstituteIn(op1, subst, source, same);
        if t1 == None { return None; }
        ghost var first, firstMap := terms, opmap;
        var res := AddUnary(code, t1.value);
        ImageGrows(source, first, firstMap, terms, opmap, subst, op1);
        r := Some(res);
      }
      case Nulary => {
        r := if t < NUM_CONSTANTS || same then Some(t) else None;
      }
    }
  }

  /** Every leaf that would have to be copied to another tree is replaced. */
  predicate Substitutable(source: seq<Operation>, subst: map<nat, nat>, t: nat, same: bool)
    requires WellFormed(source) && t < |source|
    decreases t
  {
    assert OperandsBelow(source[t], t);
    t in subst ||
    match source[t]
    case Nulary => t < NUM_CONSTANTS || same
    case Unary(_, a) => Substitutable(source, subst, a, same)
    case Binary(_, a, b) => Substitutable(source, subst, a, same) && Substitutable(source, subst, b, same)
  }

  /** The term a tree with the map opmap has for the substitution of t, if it has one. */
  ghost function Image(source: seq<Operation>, opmap: map<Operation, nat>, subst: map<nat, nat>, t: nat): Option<nat>
    requires WellFormed(source) && t < |source|
    decreases t
  {
    assert OperandsBelow(source[t], t);
    if t in subst then Some(subst[t]) else
    match source[t]
    case Nulary => Some(t)
    case Unary(c, a) =>
      var ra := Image(source, opmap, subst, a);
      if ra == None then None
      else if QuickUnary(c, ra.value).Some? then QuickUnary(c, ra.value)
      else Lookup(opmap, Unary(c, ra.value))
    case Binary(c, a, b) =>
      var ra, rb := Image(source, opmap, subst, a), Image(source, opmap, subst, b);
      if ra == None || rb == None then None
      else if QuickBinary(c, ra.value, rb.value).Some? then QuickBinary(c, ra.value, rb.value)
      else Lookup(opmap, Stored(c, ra.value, rb.value))
  }

  function Lookup(opmap: map<Operation, nat>, op: Operation): Option<nat> {
    if op in opmap then Some(opmap[op]) else None
  }

  lemma {:induction false} ImageGrows(source: seq<Operation>, terms: seq<Operation>, opmap: map<Operation, nat>,
                   more: seq<Operation>, moremap: map<Operation, nat>, subst: map<nat, nat>, t: nat)
    requires WellFormed(source) && t < |source| && Image(source, opmap, subst, t).Some?
    requires Consed(terms, opmap) && Consed(more, moremap) && terms <= more
    ensures Image(source, moremap, subst, t) == Image(source, opmap, subst, t)
    decreases t
  {
    assert OperandsBelow(source[t], t);
    assert forall op :: op in opmap ==> more[opmap[op]] == op && op in moremap && moremap[op] == opmap[op];
    if t !in subst {
      match source[t]
      case Nulary =>
      case Unary(c, a) => ImageGrows(source, terms, opmap, more, moremap, subst, a);
      case Binary(c, a, b) =>
        ImageGrows(source, terms, opmap, more, moremap, subst, a);
        ImageGrows(source, terms, opmap, more, moremap, subst, b);
    }
  }

  lemma IsUnaryStored(terms: seq<Operation>, code: UnaryCode, op: nat, r: nat)
    requires WellFormed(terms) && r < |terms| && terms[r] == Unary(code, op)
    ensures IsUnary(terms, code, op, r)
  {
    assert OperandsBelow(terms[r], r);
  }

  lemma NegationIsMinus(terms: seq<Operation>, op: nat, r: nat)
    requires IsUnary(terms, UMINUS, op, r)
    ensures IsBinary(terms, MINUS, ZERO, op, r)
  {
    forall F: Funs, p: Point | Lawful(F)
      ensures Refines(ExprJet(F, terms, p, 0, B(MINUS, Of(ZERO), Of(op))), Eval(F, terms, p, r))
    {
      assert Refines(ExprJet(F, terms, p, 0, U(UMINUS, Of(op))), Eval(F, terms, p, r));
    }
  }

  lemma IsBinaryStored(terms: seq<Operation>, code: BinaryCode, op1: nat, op2: nat, r: nat)
    requires WellFormed(terms) && r < |terms| && terms[r] == Ordered(code, op1, op2)
    ensures IsBinary(terms, code, op1, op2, r)
  {
    assert OperandsBelow(terms[r], r);
    forall F: Funs, p: Point | Lawful(F)
      ensures Refines(ExprJet(F, terms, p, 0, B(code, Of(op1), Of(op2))), Eval(F, terms, p, r))
    {
      if code == PLUS || code == TIMES {
        JetCommutes(F, code, Eval(F, terms, p, op1), Eval(F, terms, p, op2));
      }
    }
  }
}
