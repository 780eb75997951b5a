/** What a model says about the paths of its variables over time. */
module ModelMeaning {
  import opened Wrappers
  import opened Jets
  import opened Terms
  import opened DynamicAtomsModule

  /** The value of every name at every time. */
  type Path = (string, int) -> real

  /** The equations of a model: terms of a tree, and the atoms and constants of its leaves. */
  datatype Model = Model(terms: seq<Operation>, formulas: seq<nat>, atoms: map<nat, Atom>, consts: map<nat, real>, params: set<string>)

  predicate IsLeaf(terms: seq<Operation>, t: nat) {
    NUM_CONSTANTS <= t < |terms| && terms[t] == Nulary
  }

  /** The terms that have been added are no leaves. */
  ghost predicate NoNewLeaves(terms: seq<Operation>, more: seq<Operation>) {
    forall t: nat :: |terms| <= t < |more| ==> more[t] != Nulary
  }

  ghost predicate IsModel(m: Model) {
    && WellFormed(m.terms)
    && (forall i :: 0 <= i < |m.formulas| ==> m.formulas[i] < |m.terms|)
    && (forall t: nat :: t in m.atoms || t in m.consts ==> IsLeaf(m.terms, t))
  }

  /** An atom read at time s; parameters do not depend on time. */
  ghost function AtomValue(path: Path, params: set<string>, a: Atom, s: int): real {
    if a.name in params then path(a.name, 0) else path(a.name, s + a.ll)
  }

  ghost function LeafValue(m: Model, path: Path, s: int, t: nat): real
    requires t in m.atoms || t in m.consts
  {
    if t in m.atoms then AtomValue(path, m.params, m.atoms[t], s) else m.consts[t]
  }

  /** The values of the leaves at time s; a leaf without an atom has none. */
  ghost function PointAt(m: Model, path: Path, s: int): Point {
    map t | t in m.atoms.Keys + m.consts.Keys :: Jet(Some(LeafValue(m, path, s, t)), Some(0.0))
  }

  ghost function TermValue(F: Funs, m: Model, path: Path, s: int, t: nat): Option<real>
    requires IsModel(m) && t < |m.terms|
  {
    Eval(F, m.terms, PointAt(m, path, s), t).x
  }

  ghost predicate HoldsAt(F: Funs, m: Model, path: Path, i: nat, s: int)
    requires IsModel(m) && i < |m.formulas|
  {
    TermValue(F, m, path, s, m.formulas[i]) == Some(0.0)
  }

  /** Every equation holds at every time. */
  ghost predicate Solves(F: Funs, m: Model, path: Path)
    requires IsModel(m)
  {
    forall i: nat, s: int :: i < |m.formulas| ==> HoldsAt(F, m, path, i, s)
  }

  /** A term only depends on the values of its leaves. */
  lemma {:induction false} EvalSamePoint(F: Funs, terms: seq<Operation>, p: Point, q: Point, t: nat)
    requires WellFormed(terms) && t < |terms|
    requires forall l: nat :: l in Leaves(terms, t) ==> LeafJet(F, p, l) == LeafJet(F, q, l)
    ensures Eval(F, terms, p, t) == Eval(F, terms, q, t)
    decreases t
  {
    assert OperandsBelow(terms[t], t);
    match terms[t]
    case Nulary =>
    case Unary(_, a) => EvalSamePoint(F, terms, p, q, a);
    case Binary(_, a, b) => EvalSamePoint(F, terms, p, q, a); EvalSamePoint(F, terms, p, q, b);
  }

  lemma {:induction false} LeavesAreLeaves(terms: seq<Operation>, t: nat)
    requires WellFormed(terms) && t < |terms|
    ensures forall l: nat :: l in Leaves(terms, t) ==> l <= t && terms[l] == Nulary
    decreases t
  {
    assert OperandsBelow(terms[t], t);
    match terms[t]
    case Nulary =>
    case Unary(_, a) => LeavesAreLeaves(terms, a);
    case Binary(_, a, b) => LeavesAreLeaves(terms, a); LeavesAreLeaves(terms, b);
  }
}
