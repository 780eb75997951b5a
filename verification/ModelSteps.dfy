/** When one model has the same solutions as another, but for new names that are determined. */
module ModelSteps {
  import opened Jets
  import opened Terms
  import opened ModelMeaning
  import opened LagElimination

  /** All atoms have names from this set. */
  ghost predicate NamesIn(m: Model, names: set<string>) {
    forall t: nat :: t in m.atoms ==> m.atoms[t].name in names
  }

  ghost predicate Restricts(F: Funs, m0: Model, m1: Model)
    requires IsModel(m0) && IsModel(m1)
  {
    forall x: Path :: Solves(F, m1, x) ==> Solves(F, m0, x)
  }

  ghost predicate ExtendsTo(F: Funs, names0: set<string>, m1: Model, x: Path)
    requires IsModel(m1)
  {
    exists y: Path :: AgreeOn(names0, x, y) && Solves(F, m1, y)
  }

  ghost predicate Extends(F: Funs, m0: Model, names0: set<string>, m1: Model)
    requires IsModel(m0) && IsModel(m1)
  {
    forall x: Path :: Solves(F, m0, x) ==> ExtendsTo(F, names0, m1, x)
  }

  ghost predicate Determines(F: Funs, names0: set<string>, m1: Model, names1: set<string>)
    requires IsModel(m1)
  {
    forall x: Path, y: Path :: Solves(F, m1, x) && Solves(F, m1, y) && AgreeOn(names0, x, y) ==> AgreeOn(names1, x, y)
  }

  /** The solutions of m1 are the solutions of m0, each extended to the new names in exactly one way. */
  ghost predicate Conservative(m0: Model, names0: set<string>, m1: Model, names1: set<string>) {
    && IsModel(m0) && IsModel(m1) && names0 <= names1
    && forall F: Funs :: Lawful(F) ==> Restricts(F, m0, m1) && Extends(F, m0, names0, m1) && Determines(F, names0, m1, names1)
  }

  lemma ConservativeSelf(m: Model, names: set<string>)
    requires IsModel(m)
    ensures Conservative(m, names, m, names)
  {
    forall F: Funs, x: Path | Solves(F, m, x)
      ensures ExtendsTo(F, names, m, x)
    {
      assert AgreeOn(names, x, x);
    }
  }

  lemma ConservativeTrans(m0: Model, n0: set<string>, m1: Model, n1: set<string>, m2: Model, n2: set<string>)
    requires Conservative(m0, n0, m1, n1) && Conservative(m1, n1, m2, n2)
    ensures Conservative(m0, n0, m2, n2)
  {
    forall F: Funs | Lawful(F)
      ensures Restricts(F, m0, m2) && Extends(F, m0, n0, m2) && Determines(F, n0, m2, n2)
    {
      ConservativeTransFor(F, m0, n0, m1, n1, m2, n2);
    }
  }

  lemma ConservativeTransFor(F: Funs, m0: Model, n0: set<string>, m1: Model, n1: set<string>, m2: Model, n2: set<string>)
    requires IsModel(m0) && IsModel(m1) && IsModel(m2) && n0 <= n1 <= n2
    requires Restricts(F, m0, m1) && Extends(F, m0, n0, m1) && Determines(F, n0, m1, n1)
    requires Restricts(F, m1, m2) && Extends(F, m1, n1, m2) && Determines(F, n1, m2, n2)
    ensures Restricts(F, m0, m2) && Extends(F, m0, n0, m2) && Determines(F, n0, m2, n2)
  {
    hide Solves, IsModel, ExtendsTo, AgreeOn;
    forall x: Path | Solves(F, m0, x)
      ensures ExtendsTo(F, n0, m2, x)
    {
      ExtendsTrans(F, m0, n0, m1, n1, m2, x);
    }
    forall x: Path, y: Path | Solves(F, m2, x) && Solves(F, m2, y) && AgreeOn(n0, x, y)
      ensures AgreeOn(n2, x, y)
    {
      assert AgreeOn(n1, x, y);
    }
  }

  lemma ExtendsTrans(F: Funs, m0: Model, n0: set<string>, m1: Model, n1: set<string>, m2: Model, x: Path)
    requires IsModel(m0) && IsModel(m1) && IsModel(m2) && n0 <= n1 && Solves(F, m0, x)
    requires Extends(F, m0, n0, m1) && Extends(F, m1, n1, m2)
    ensures ExtendsTo(F, n0, m2, x)
  {
    hide Solves, IsModel;
    assert ExtendsTo(F, n0, m1, x);
    var y: Path :| AgreeOn(n0, x, y) && Solves(F, m1, y);
    assert ExtendsTo(F, n1, m2, y);
    var z: Path :| AgreeOn(n1, y, z) && Solves(F, m2, z);
    assert AgreeOn(n0, x, z);
  }

  /** The same solutions, over the same names. */
  lemma SameSolutions(m0: Model, m1: Model, names: set<string>)
    requires IsModel(m0) && IsModel(m1)
    requires forall F: Funs, x: Path :: Lawful(F) ==> (Solves(F, m1, x) <==> Solves(F, m0, x))
    ensures Conservative(m0, names, m1, names)
  {
    hide Solves, IsModel;
    forall F: Funs, x: Path | Lawful(F) && Solves(F, m0, x)
      ensures ExtendsTo(F, names, m1, x)
    {
      assert AgreeOn(names, x, x);
    }
  }

  /** The tree has grown, leaves have been added, equations have been added. */
  ghost predicate GrowsTo(m0: Model, m1: Model) {
    && m0.terms <= m1.terms && m0.formulas <= m1.formulas && m1.consts == m0.consts && m1.params == m0.params
    && (forall t: nat :: t in m0.atoms ==> t in m1.atoms && m1.atoms[t] == m0.atoms[t])
    && (forall t: nat :: t in m1.atoms && t < |m0.terms| ==> t in m0.atoms)
  }

  /** All leaves that have been added have atoms with leads up to b. */
  ghost predicate LeafGrowth(m0: Model, m1: Model, b: int) {
    forall t: nat :: |m0.terms| <= t < |m1.terms| && m1.terms[t] == Nulary ==> t in m1.atoms && -b <= m1.atoms[t].ll <= b
  }

  lemma LeafGrowthTrans(m0: Model, m1: Model, m2: Model, b: int)
    requires GrowsTo(m0, m1) && GrowsTo(m1, m2) && LeafGrowth(m0, m1, b) && LeafGrowth(m1, m2, b)
    ensures LeafGrowth(m0, m2, b)
  {
    forall t: nat | |m0.terms| <= t < |m2.terms| && m2.terms[t] == Nulary
      ensures t in m2.atoms && -b <= m2.atoms[t].ll <= b
    {
      if t < |m1.terms| { assert m1.terms[t] == m2.terms[t]; }
    }
  }

  lemma LeafGrowthMore(m0: Model, m1: Model, b: int, c: int)
    requires LeafGrowth(m0, m1, b) && b <= c
    ensures LeafGrowth(m0, m1, c)
  {
  }

  lemma NoLeafGrowth(m0: Model, m1: Model, b: int)
    requires NoNewLeaves(m0.terms, m1.terms)
    ensures LeafGrowth(m0, m1, b)
  {
  }

  lemma GrowsToTrans(m0: Model, m1: Model, m2: Model)
    requires GrowsTo(m0, m1) && GrowsTo(m1, m2)
    ensures GrowsTo(m0, m2)
  {
  }

  /** Old terms keep their values. */
  lemma GrownValue(F: Funs, m0: Model, m1: Model, path: Path, s: int, t: nat)
    requires IsModel(m0) && IsModel(m1) && GrowsTo(m0, m1) && t < |m0.terms|
    ensures TermValue(F, m1, path, s, t) == TermValue(F, m0, path, s, t)
  {
    var p, q := PointAt(m0, path, s), PointAt(m1, path, s);
    EvalGrows(F, m0.terms, m1.terms, q, t);
    LeavesAreLeaves(m0.terms, t);
    forall l: nat | l in Leaves(m0.terms, t)
      ensures LeafJet(F, p, l) == LeafJet(F, q, l)
    {
      assert l in p <==> l in q;
      if l in p { assert LeafValue(m0, path, s, l) == LeafValue(m1, path, s, l); }
    }
    EvalSamePoint(F, m0.terms, p, q, t);
  }

  /** A path solves a grown model when it solves the old one and the added equations. */
  lemma GrownSolves(F: Funs, m0: Model, m1: Model, path: Path)
    requires IsModel(m0) && IsModel(m1) && GrowsTo(m0, m1)
    ensures Solves(F, m1, path) <==>
      Solves(F, m0, path) && forall i: nat, s: int :: |m0.formulas| <= i < |m1.formulas| ==> HoldsAt(F, m1, path, i, s)
  {
    forall i: nat, s: int | i < |m0.formulas|
      ensures HoldsAt(F, m1, path, i, s) <==> HoldsAt(F, m0, path, i, s)
    {
      assert m1.formulas[i] == m0.formulas[i];
      GrownValue(F, m0, m1, path, s, m0.formulas[i]);
    }
    if Solves(F, m1, path) {
      forall i: nat, s: int | i < |m0.formulas|
        ensures HoldsAt(F, m0, path, i, s)
      {
        assert HoldsAt(F, m1, path, i, s);
      }
    }
  }

  /** Values only depend on the names of the leaves. */
  lemma AgreeValue(F: Funs, m: Model, names: set<string>, x: Path, y: Path, s: int, t: nat)
    requires IsModel(m) && t < |m.terms| && AgreeOn(names, x, y)
    requires forall l: nat :: l in Leaves(m.terms, t) && l in m.atoms ==> m.atoms[l].name in names
    ensures TermValue(F, m, x, s, t) == TermValue(F, m, y, s, t)
  {
    var p, q := PointAt(m, x, s), PointAt(m, y, s);
    forall l: nat | l in Leaves(m.terms, t)
      ensures LeafJet(F, p, l) == LeafJet(F, q, l)
    {
      if l in p { assert LeafValue(m, x, s, l) == LeafValue(m, y, s, l); }
    }
    EvalSamePoint(F, m.terms, p, q, t);
  }
}
