/** The formulas of a model over its operation tree. */
module FormulaParserModule {
  import opened Wrappers
  import opened Jets
  import opened Terms
  import opened OperationTrees
  import opened DynamicAtomsModule
  import opened ModelMeaning

  class FormulaParser {
    const otree: OperationTree
    const atoms: DynamicAtoms
    var formulas: seq<nat>

    ghost predicate Valid()
      reads this, otree, atoms
    {
      otree.Shape() && atoms.Valid() && atoms.Declared() && IsModel(AsModel())
    }

    /** The model that the formulas stand for. */
    ghost function AsModel(): Model
      reads this, otree, atoms
    {
      Model(otree.terms, formulas, atoms.indices, atoms.consts, set n: string | n in atoms.params)
    }

    constructor (tree: OperationTree, a: DynamicAtoms)
      requires tree.Shape() && a.Valid() && a.Declared() && a.indices == map[] && a.consts == map[]
      ensures Valid() && otree == tree && atoms == a && formulas == []
    {
      otree, atoms, formulas := tree, a, [];
    }

    /** The leaf of an atom, added to the tree when the atom has none; fails exactly on an
        undeclared name. */
    method AddNulary(a: Atom) returns (t: Option<nat>)
      requires Valid() && InRange(a.ll)
      modifies otree, atoms`vars, atoms`indices, atoms`nv, atoms`minlag, atoms`maxlead
      ensures Valid() && formulas == old(formulas)
      ensures t.Some? <==> a.name in atoms.varnames
      ensures t == None || a in old(atoms.vars) ==> AsModel() == old(AsModel()) && otree.opmap == old(otree.opmap) && atoms.vars == old(atoms.vars)
      ensures t.Some? && a in old(atoms.vars) ==> t.value == old(atoms.vars)[a]
      ensures t.Some? && a !in old(atoms.vars) ==>
        && t.value == |old(otree.terms)| && t.value !in old(atoms.indices) && otree.terms == old(otree.terms) + [Nulary]
        && atoms.indices == old(atoms.indices)[t.value := a] && atoms.vars == old(atoms.vars)[a := t.value]
    {
      hide Reduced, Consed, Incident, CacheSound, Spans, IsModel;
      if a.name !in atoms.varnames {
        return None;
      }
      t := atoms.Index(a);
      if t == None {
        ModelWithLeaf(AsModel(), a);
        var leaf := otree.AddNulary();
        var ok := atoms.AssignVariable(a, leaf);
        t := Some(leaf);
      }
    }

    method AddBinary(code: BinaryCode, t1: nat, t2: nat) returns (r: nat)
      requires Valid() && t1 < |otree.terms| && t2 < |otree.terms|
      modifies otree
      ensures Valid() && AsModel() == old(AsModel()).(terms := otree.terms)
      ensures old(otree.terms) <= otree.terms && r < |otree.terms| && IsBinary(otree.terms, code, t1, t2, r)
      ensures StoredAs(otree.terms, code, t1, t2, r) && NoNewLeaves(old(otree.terms), otree.terms)
    {
      hide Reduced, Consed, Incident, CacheSound, Spans, IsModel, IsBinary, QuickBinary, Stored, DynamicAtoms.Valid, DynamicAtoms.Declared;
      ghost var m := AsModel();
      LastLeaf();
      r := otree.AddBinary(code, t1, t2);
      LeavesEnd(m.terms);
      ModelGrows(m, otree.terms);
    }

    lemma LastLeaf()
      requires otree.Shape()
      ensures otree.lastNulary < |otree.terms|
    {
    }

    /** After the last leaf there are only operations. */
    lemma LeavesEnd(terms: seq<Operation>)
      requires otree.Shape() && otree.lastNulary < |terms|
      ensures NoNewLeaves(terms, otree.terms)
    {
    }

    /** Adds the equation that two terms are equal. */
    method AddDifference(t1: nat, t2: nat) returns (f: nat)
      requires Valid() && t1 < |otree.terms| && t2 < |otree.terms|
      modifies this`formulas, otree
      ensures Valid() && IsBinary(otree.terms, MINUS, t1, t2, f) && StoredAs(otree.terms, MINUS, t1, t2, f)
      ensures AsModel() == old(AsModel()).(terms := otree.terms, formulas := old(formulas) + [f])
      ensures old(otree.terms) <= otree.terms && NoNewLeaves(old(otree.terms), otree.terms)
    {
      hide Reduced, Consed, Incident, Spans, IsModel, IsBinary, StoredAs, NoNewLeaves;
      f := AddBinary(MINUS, t1, t2);
      AddFormula(f);
    }

    /** The derivative of a term. */
    method AddDerivative(t: nat, v: nat) returns (r: nat)
      requires Valid() && otree.CacheOk() && t < |otree.terms|
      modifies otree
      ensures Valid() && otree.CacheOk() && otree.lastNulary == old(otree.lastNulary)
      ensures AsModel() == old(AsModel()).(terms := otree.terms) && old(otree.terms) <= otree.terms
      ensures r < |otree.terms| && Represents(otree.terms, v, By(t), r)
    {
      hide OperationTree.Shape, OperationTree.CacheOk, Represents, IsModel, Spans;
      ghost var m := AsModel();
      TreeIsWellFormed();
      r := otree.Differentiate(t, v);
      TreeIsWellFormed();
      RepresentsInside(otree.terms, v, By(t), r);
      ModelGrows(m, otree.terms);
    }

    lemma TreeIsWellFormed()
      requires otree.Shape()
      ensures WellFormed(otree.terms)
    {
    }

    lemma RepresentsInside(terms: seq<Operation>, v: nat, e: Expr, r: nat)
      requires Represents(terms, v, e, r)
      ensures r < |terms|
    {
    }

    /** The term with leaves replaced. */
    method AddSubstitution(t: nat, subst: map<nat, nat>) returns (r: nat)
      requires Valid() && t < |otree.terms| && forall k: nat :: k in subst ==> subst[k] < |otree.terms|
      modifies otree
      ensures Valid() && AsModel() == old(AsModel()).(terms := otree.terms) && old(otree.terms) <= otree.terms
      ensures r < |otree.terms| && Image(old(otree.terms), otree.opmap, subst, t) == Some(r) && NoNewLeaves(old(otree.terms), otree.terms)
    {
      hide Reduced, Consed, Incident, CacheSound, Spans, IsModel, Image, DynamicAtoms.Valid, DynamicAtoms.Declared;
      ghost var m := AsModel();
      SubstitutableSame(otree.terms, subst, t);
      LastLeaf();
      var found := otree.AddSubstitution(t, subst, otree);
      r := found.value;
      LeavesEnd(m.terms);
      ModelGrows(m, otree.terms);
    }

    method AddFormula(t: nat)
      requires Valid() && t < |otree.terms|
      modifies this`formulas
      ensures Valid() && formulas == old(formulas) + [t]
    {
      formulas := formulas + [t];
    }
  }

  /** A model over a tree that has grown. */
  lemma ModelGrows(m: Model, terms: seq<Operation>)
    requires IsModel(m) && WellFormed(terms) && m.terms <= terms
    ensures IsModel(m.(terms := terms))
  {
  }

  /** A model with one more leaf, assigned to an atom. */
  lemma ModelWithLeaf(m: Model, a: Atom)
    requires IsModel(m)
    ensures WellFormed(m.terms) && |m.terms| !in m.atoms
    ensures IsModel(m.(terms := m.terms + [Nulary], atoms := m.atoms[|m.terms| := a]))
  {
    var more := m.terms + [Nulary];
    forall t | 0 <= t < |more|
      ensures OperandsBelow(more[t], t)
    {
      if t < |m.terms| { assert more[t] == m.terms[t]; }
    }
  }

  lemma {:induction false} SubstitutableSame(source: seq<Operation>, subst: map<nat, nat>, t: nat)
    requires WellFormed(source) && t < |source|
    ensures Substitutable(source, subst, t, true)
    decreases t
  {
    assert OperandsBelow(source[t], t);
    match source[t]
    case Nulary =>
    case Unary(_, a) => SubstitutableSame(source, subst, a);
    case Binary(_, a, b) => SubstitutableSame(source, subst, a); SubstitutableSame(source, subst, b);
  }
}
