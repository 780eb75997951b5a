/** What substituting and turning terms into leaves mean for the values of terms. */
module TreeMeaning {
  import opened Jets
  import opened Terms
  import opened OperationTrees

  /** The value of t with the terms in the domain of subst revalued in another tree. */
  ghost function Substituted(F: Funs, source: seq<Operation>, terms: seq<Operation>, p: Point, subst: map<nat, nat>, t: nat): Jet
    requires WellFormed(source) && t < |source| && WellFormed(terms)
    requires forall k :: k in subst ==> subst[k] < |terms|
    decreases t
  {
    assert OperandsBelow(source[t], t);
    if t in subst then Eval(F, terms, p, subst[t]) else
    match source[t]
    case Nulary => LeafJet(F, p, t)
    case Unary(c, a) => JetUnary(F, c, Substituted(F, source, terms, p, subst, a))
    case Binary(c, a, b) =>
      JetBinary(F, c, Substituted(F, source, terms, p, subst, a), Substituted(F, source, terms, p, subst, b))
  }

  /** Substitution builds a term that refines the substituted expression. */
  lemma {:induction false} ImageRefines(F: Funs, source: seq<Operation>, terms: seq<Operation>, opmap: map<Operation, nat>,
                      p: Point, subst: map<nat, nat>, t: nat, same: bool)
    requires Lawful(F) && WellFormed(source) && t < |source| && WellFormed(terms) && Consed(terms, opmap)
    requires forall k :: k in subst ==> subst[k] < |terms|
    requires (same ==> source <= terms) && Substitutable(source, subst, t, same)
    requires Image(source, opmap, subst, t).Some?
    ensures var r := Image(source, opmap, subst, t).value;
            r < |terms| && Refines(Substituted(F, source, terms, p, subst, t), Eval(F, terms, p, r))
    decreases t
  {
    assert OperandsBelow(source[t], t);
    if t !in subst {
      var r := Image(source, opmap, subst, t).value;
      match source[t]
      case Nulary =>
      case Unary(c, a) =>
        ImageRefines(F, source, terms, opmap, p, subst, a, same);
        var ra := Image(source, opmap, subst, a).value;
        JetUnaryMonotone(F, c, Substituted(F, source, terms, p, subst, a), Eval(F, terms, p, ra));
        if QuickUnary(c, ra).Some? {
          QuickUnarySound(F, terms, p, c, ra);
        } else {
          StoredUnary(F, terms, p, c, ra, r);
        }
      case Binary(c, a, b) =>
        ImageRefines(F, source, terms, opmap, p, subst, a, same);
        ImageRefines(F, source, terms, opmap, p, subst, b, same);
        var ra, rb := Image(source, opmap, subst, a).value, Image(source, opmap, subst, b).value;
        JetBinaryMonotone(F, c, Substituted(F, source, terms, p, subst, a), Eval(F, terms, p, ra),
                          Substituted(F, source, terms, p, subst, b), Eval(F, terms, p, rb));
        if QuickBinary(c, ra, rb).Some? {
          QuickBinarySound(F, terms, p, c, ra, rb);
        } else {
          StoredBinary(F, terms, p, c, ra, rb, r);
        }
    }
  }

  lemma StoredUnary(F: Funs, terms: seq<Operation>, p: Point, c: UnaryCode, a: nat, r: nat)
    requires WellFormed(terms) && r < |terms| && terms[r] == Unary(c, a)
    ensures a < r && Eval(F, terms, p, r) == JetUnary(F, c, Eval(F, terms, p, a))
  {
    assert OperandsBelow(terms[r], r);
  }

  /** A stored operation means what was asked for: its operands may have been swapped,
      or a difference from zero stored as a negation. */
  lemma StoredBinary(F: Funs, terms: seq<Operation>, p: Point, c: BinaryCode, a: nat, b: nat, r: nat)
    requires WellFormed(terms) && r < |terms| && terms[r] == Stored(c, a, b) && a < |terms| && b < |terms|
    ensures Eval(F, terms, p, r) == JetBinary(F, c, Eval(F, terms, p, a), Eval(F, terms, p, b))
  {
    assert OperandsBelow(terms[r], r);
    if c == PLUS || c == TIMES {
      JetCommutes(F, c, Eval(F, terms, p, a), Eval(F, terms, p, b));
    }
  }

  /** The leaves of a tree, revalued through a substitution. */
  ghost function Revalued(F: Funs, terms: seq<Operation>, p: Point, subst: map<nat, nat>): Point
    requires WellFormed(terms) && forall k :: k in subst ==> subst[k] < |terms|
  {
    map k | k in p.Keys + subst.Keys :: if k in subst then Eval(F, terms, p, subst[k]) else p[k]
  }

  ghost predicate LeafSubstitution(source: seq<Operation>, subst: map<nat, nat>) {
    forall k :: k in subst ==> NUM_CONSTANTS <= k < |source| && source[k] == Nulary
  }

  /** When leaves are replaced, the substituted expression is the expression at the revalued point. */
  lemma {:induction false} SubstitutedIsRevalued(F: Funs, source: seq<Operation>, terms: seq<Operation>, p: Point,
                               subst: map<nat, nat>, t: nat)
    requires WellFormed(source) && t < |source| && WellFormed(terms)
    requires forall k :: k in subst ==> subst[k] < |terms|
    requires LeafSubstitution(source, subst)
    ensures Substituted(F, source, terms, p, subst, t) == Eval(F, source, Revalued(F, terms, p, subst), t)
    decreases t
  {
    assert OperandsBelow(source[t], t);
    match source[t]
    case Nulary =>
    case Unary(c, a) => SubstitutedIsRevalued(F, source, terms, p, subst, a);
    case Binary(c, a, b) =>
      SubstitutedIsRevalued(F, source, terms, p, subst, a);
      SubstitutedIsRevalued(F, source, terms, p, subst, b);
  }

  /** Evaluating a substituted term is evaluating the term with its leaves revalued. */
  lemma SubstitutionMeaning(F: Funs, source: seq<Operation>, terms: seq<Operation>, opmap: map<Operation, nat>,
                            p: Point, subst: map<nat, nat>, t: nat, same: bool)
    requires Lawful(F) && WellFormed(source) && t < |source| && WellFormed(terms) && Consed(terms, opmap)
    requires forall k :: k in subst ==> subst[k] < |terms|
    requires (same ==> source <= terms) && Substitutable(source, subst, t, same)
    requires Image(source, opmap, subst, t).Some?
    requires LeafSubstitution(source, subst)
    ensures var r := Image(source, opmap, subst, t).value;
            r < |terms| && Refines(Eval(F, source, Revalued(F, terms, p, subst), t), Eval(F, terms, p, r))
  {
    ImageRefines(F, source, terms, opmap, p, subst, t, same);
    SubstitutedIsRevalued(F, source, terms, p, subst, t);
  }

  /** Turning t into a leaf keeps every value, as long as the new leaf is given the old value of t. */
  lemma {:induction false} NularifyMeaning(F: Funs, terms: seq<Operation>, p: Point, t: nat, n: nat)
    requires WellFormed(terms) && NUM_CONSTANTS <= t < |terms| && n < |terms|
    requires WellFormed(terms[t := Nulary])
    ensures Eval(F, terms[t := Nulary], p[t := Eval(F, terms, p, t)], n) == Eval(F, terms, p, n)
    decreases n
  {
    assert OperandsBelow(terms[n], n);
    if n != t {
      match terms[n]
      case Nulary =>
      case Unary(c, a) => NularifyMeaning(F, terms, p, t, a);
      case Binary(c, a, b) => NularifyMeaning(F, terms, p, t, a); NularifyMeaning(F, terms, p, t, b);
    }
  }
}
