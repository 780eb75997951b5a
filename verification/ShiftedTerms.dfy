/** Terms with the leads of their variables shifted. */
module ShiftedTerms {
  import opened Wrappers
  import opened Jets
  import opened Terms
  import opened OperationTrees
  import opened TreeMeaning
  import opened Renaming
  import opened DynamicAtomsModule
  import opened ModelMeaning
  import opened LagElimination
  import opened ForwardMeaning

  /** No two leaves have the same atom. */
  ghost predicate OneLeafEach(m: Model) {
    forall t: nat, u: nat :: t in m.atoms && u in m.atoms && m.atoms[t] == m.atoms[u] ==> t == u
  }

  /** The map sends the leaves of variables to the leaves of the same variables d periods later, and nothing else. */
  ghost predicate ShiftMap(m: Model, leaves: set<nat>, subst: map<nat, nat>, d: int) {
    && (forall l: nat :: l in subst ==> l in leaves)
    && (forall l: nat :: l in leaves ==> ShiftsLeaf(m, subst, d, l))
  }

  ghost predicate ShiftsLeaf(m: Model, subst: map<nat, nat>, d: int, l: nat) {
    if l in subst then
      && l in m.atoms && m.atoms[l].name !in m.params
      && subst[l] in m.atoms && m.atoms[subst[l]] == Atom(m.atoms[l].name, m.atoms[l].ll + d)
    else l in m.atoms ==> m.atoms[l].name in m.params
  }

  lemma ShiftIsRenaming(m: Model, source: seq<Operation>, leaves: set<nat>, subst: map<nat, nat>, d: int)
    requires IsModel(m) && OneLeafEach(m) && ShiftMap(m, leaves, subst, d)
    requires source <= m.terms && forall l: nat :: l in leaves ==> l < |source| && source[l] == Nulary
    ensures OneToOne(source, m.terms, subst, leaves)
  {
    forall k: nat | k in subst
      ensures ProperLeaf(source, k) && ProperLeaf(m.terms, subst[k])
    {
      assert ShiftsLeaf(m, subst, d, k);
      assert IsLeaf(m.terms, k) && IsLeaf(m.terms, subst[k]);
    }
    forall k: nat, l: nat | k in leaves && l in leaves && Renamed(subst, k) == Renamed(subst, l)
      ensures k == l
    {
      assert ShiftsLeaf(m, subst, d, k) && ShiftsLeaf(m, subst, d, l);
    }
  }

  /** Tree, source and maps at the time the shifted term has been built. */
  ghost predicate Built(m: Model, source: seq<Operation>, sourcemap: map<Operation, nat>, opmap: map<Operation, nat>,
                        subst: map<nat, nat>, t: nat, lagt: nat, d: int) {
    && IsModel(m) && OneLeafEach(m) && Trees(source, sourcemap, m.terms, opmap)
    && t < |source| && ShiftMap(m, Leaves(source, t), subst, d)
    && Image(source, opmap, subst, t) == Some(lagt)
  }

  lemma BuiltOneToOne(m: Model, source: seq<Operation>, sourcemap: map<Operation, nat>, opmap: map<Operation, nat>,
                      subst: map<nat, nat>, t: nat, lagt: nat, d: int)
    requires Built(m, source, sourcemap, opmap, subst, t, lagt, d)
    ensures OneToOne(source, m.terms, subst, Leaves(source, t))
  {
    LeavesAreLeaves(source, t);
    ShiftIsRenaming(m, source, Leaves(source, t), subst, d);
  }

  /** A leaf at the later time has the value of its shifted leaf. */
  lemma ShiftedLeaf(F: Funs, m: Model, leaves: set<nat>, subst: map<nat, nat>, d: int, path: Path, s: int, l: nat)
    requires IsModel(m) && ShiftMap(m, leaves, subst, d) && l in leaves
    requires forall k: nat :: k in subst ==> subst[k] < |m.terms|
    ensures LeafJet(F, Revalued(F, m.terms, PointAt(m, path, s), subst), l) == LeafJet(F, PointAt(m, path, s + d), l)
  {
    hide ShiftsLeaf, WellFormed, Eval;
    assert ShiftsLeaf(m, subst, d, l);
    if l in subst {
      MovedLeaf(F, m, subst, d, path, s, l);
    } else {
      FixedLeaf(F, m, subst, d, path, s, l);
    }
  }

  lemma MovedLeaf(F: Funs, m: Model, subst: map<nat, nat>, d: int, path: Path, s: int, l: nat)
    requires IsModel(m) && ShiftsLeaf(m, subst, d, l) && l in subst
    requires forall k: nat :: k in subst ==> subst[k] < |m.terms|
    ensures LeafJet(F, Revalued(F, m.terms, PointAt(m, path, s), subst), l) == LeafJet(F, PointAt(m, path, s + d), l)
  {
    hide Eval, WellFormed;
    assert IsLeaf(m.terms, l);
    LeafEval(F, m, path, s, subst[l]);
    assert s + (m.atoms[l].ll + d) == s + d + m.atoms[l].ll;
    assert LeafValue(m, path, s + d, l) == path(m.atoms[l].name, s + d + m.atoms[l].ll);
  }

  lemma FixedLeaf(F: Funs, m: Model, subst: map<nat, nat>, d: int, path: Path, s: int, l: nat)
    requires IsModel(m) && ShiftsLeaf(m, subst, d, l) && l !in subst
    requires forall k: nat :: k in subst ==> subst[k] < |m.terms|
    ensures LeafJet(F, Revalued(F, m.terms, PointAt(m, path, s), subst), l) == LeafJet(F, PointAt(m, path, s + d), l)
  {
    hide Eval, WellFormed;
    var p, q := PointAt(m, path, s), PointAt(m, path, s + d);
    assert l in p <==> l in q;
    if l in p {
      assert LeafValue(m, path, s, l) == LeafValue(m, path, s + d, l);
    }
  }

  /** The shifted term has exactly the value of the term d periods later. */
  lemma ShiftedValue(F: Funs, m: Model, source: seq<Operation>, sourcemap: map<Operation, nat>, opmap: map<Operation, nat>,
                     subst: map<nat, nat>, t: nat, lagt: nat, d: int, path: Path, s: int)
    requires Built(m, source, sourcemap, opmap, subst, t, lagt, d) && lagt < |m.terms|
    ensures ShiftedAt(F, m, t, lagt, d, path, s)
  {
    var leaves := Leaves(source, t);
    BuiltOneToOne(m, source, sourcemap, opmap, subst, t, lagt, d);
    var p, q := PointAt(m, path, s), PointAt(m, path, s + d);
    ImageExact(F, source, sourcemap, m.terms, opmap, subst, leaves, p, t);
    var r := Revalued(F, m.terms, p, subst);
    SubstitutedIsRevalued(F, source, m.terms, p, subst, t);
    forall l: nat | l in leaves
      ensures LeafJet(F, r, l) == LeafJet(F, q, l)
    {
      ShiftedLeaf(F, m, leaves, subst, d, path, s, l);
    }
    EvalSamePoint(F, source, r, q, t);
    EvalGrows(F, source, m.terms, q, t);
  }

  /** The leaves of the shifted term. */
  lemma ShiftedLeaves(m: Model, source: seq<Operation>, sourcemap: map<Operation, nat>, opmap: map<Operation, nat>,
                      subst: map<nat, nat>, t: nat, lagt: nat, d: int)
    requires Built(m, source, sourcemap, opmap, subst, t, lagt, d)
    ensures lagt < |m.terms|
    ensures forall l: nat :: l in Leaves(m.terms, lagt) ==> exists k: nat :: k in Leaves(source, t) && l == Renamed(subst, k)
  {
    BuiltOneToOne(m, source, sourcemap, opmap, subst, t, lagt, d);
    ImageLeaves(source, sourcemap, m.terms, opmap, subst, Leaves(source, t), t);
  }

  /** The shifted term reads the same names, d periods later. */
  lemma ShiftedReads(m: Model, source: seq<Operation>, sourcemap: map<Operation, nat>, opmap: map<Operation, nat>,
                     subst: map<nat, nat>, t: nat, lagt: nat, d: int, names: set<string>, mlead: int)
    requires Built(m, source, sourcemap, opmap, subst, t, lagt, d) && lagt < |m.terms|
    requires forall l: nat :: l in Leaves(source, t) && l in m.atoms ==> m.atoms[l].name in names
    requires forall l: nat :: l in Leaves(source, t) && l in subst ==> l in m.atoms && m.atoms[l].ll <= mlead
    ensures ReadsNames(m, names, lagt)
    ensures forall l: nat :: l in Leaves(m.terms, lagt) && l in m.atoms && m.atoms[l].name !in m.params ==> m.atoms[l].ll <= mlead + d
  {
    ShiftedLeaves(m, source, sourcemap, opmap, subst, t, lagt, d);
    forall l: nat | l in Leaves(m.terms, lagt) && l in m.atoms
      ensures m.atoms[l].name in names && (m.atoms[l].name !in m.params ==> m.atoms[l].ll <= mlead + d)
    {
      var k: nat :| k in Leaves(source, t) && l == Renamed(subst, k);
      assert ShiftsLeaf(m, subst, d, k);
    }
  }
}
