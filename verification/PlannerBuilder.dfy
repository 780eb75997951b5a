/** The first-order conditions of the planner's problem, built by passes over matrices of terms. */
module PlannerBuilders {
  import opened Jets
  import opened Terms
  import opened OperationTrees
  import opened DynamicAtomsModule
  import opened ModelMeaning
  import opened LagElimination
  import opened ModelSteps
  import opened ForwardMeaning
  import opened DynareModels
  import opened AuxNames
  import opened PlannerMeaning
  import opened PlannerPasses
  import opened PlannerConditions

  class PlannerBuilder {
    const model: DynareModel
    const ys: seq<string>
    const fset: seq<nat>
    const tb: nat
    const tbeta: nat
    const maxlead: int
    const minlag: int
    /** The matrices of terms, by variable, constraint and lead. */
    var diffB: map<(nat, int), nat>
    var diffF: map<(nat, nat, int), nat>
    var auxMap: map<string, nat>
    ghost const plan: Plan

    constructor (m: DynareModel, y: seq<string>, f: seq<nat>, b: nat, beta: nat)
      requires m.Valid() && beta in m.eqs.atoms.indices
      ensures model == m && ys == y && fset == f && tb == b && tbeta == beta
      ensures maxlead == m.eqs.atoms.maxlead && minlag == m.eqs.atoms.minlag
      ensures diffB == map[] && diffF == map[] && auxMap == map[]
      ensures plan == Plan(m.eqs.AsModel(), m.eqs.atoms.vars, m.eqs.atoms.varnames, y, f, b, m.eqs.atoms.indices[beta].name)
    {
      model, ys, fset, tb, tbeta := m, y, f, b, beta;
      maxlead, minlag := m.eqs.atoms.maxlead, m.eqs.atoms.minlag;
      diffB, diffF, auxMap := map[], map[], map[];
      plan := Plan(m.eqs.AsModel(), m.eqs.atoms.vars, m.eqs.atoms.varnames, y, f, b, m.eqs.atoms.indices[beta].name);
    }

    /** The plan is over the builder's own sets. */
    ghost predicate Planned() {
      plan.ys == ys && plan.fset == fset && plan.tb == tb && IsModel(plan.m0)
    }

    // ----- the derivatives -----

    /** While derivatives are taken, only terms that are no leaves are added. */
    ghost predicate Deriving()
      reads this, model.eqs, model.eqs.otree, model.eqs.atoms
    {
      && Planned() && model.Valid() && model.eqs.otree.CacheOk()
      && model.eqs.AsModel() == plan.m0.(terms := model.eqs.otree.terms) && plan.m0.terms <= model.eqs.otree.terms
      && model.eqs.otree.lastNulary < |plan.m0.terms|
      && model.eqs.atoms.vars == plan.vars && tb < |plan.m0.terms|
      && forall fi :: 0 <= fi < |fset| ==> fset[fi] < |plan.m0.formulas|
    }

    /** The derivative of a term by a variable at some lead. */
    method DerivativeCell(t: nat, y: string, ll: int) returns (r: nat)
      requires Deriving() && t < |plan.m0.terms|
      modifies model.eqs.otree
      ensures Deriving() && GrowsTo(old(model.eqs.AsModel()), model.eqs.AsModel())
      ensures Means(plan.m0, model.eqs.AsModel(), r, DerivativeBy(plan, y, ll, t)) && r < |model.eqs.otree.terms|
    {
      hide Means, IsModel, OperationTree.Shape, OperationTree.CacheOk, Represents, Typed, ConstantsApart, DynamicAtoms.Valid, DynamicAtoms.Declared;
      ghost var m := model.eqs.AsModel();
      model.Parts();
      var yt := model.eqs.atoms.Index(Atom(y, ll));
      if yt.Some? {
        r := model.eqs.AddDerivative(t, yt.value);
        model.StillValid(m);
        model.Parts();
        MeansDerivative(plan.m0, model.eqs.AsModel(), yt.value, t, r);
      } else {
        r := ZERO;
        ZeroBelow();
        MeansConstants(plan.m0, model.eqs.AsModel());
      }
    }

    method AddDerivativesOfB()
      requires Deriving()
      modifies this`diffB, model.eqs.otree
      ensures Deriving() && PassB(plan, model.eqs.AsModel(), diffB, minlag, 0, {})
    {
      hide Means, IsModel, DynareModel.Valid, OperationTree.CacheOk, GrowsTo;
      for yi := 0 to |ys|
        invariant Deriving()
        invariant forall y: nat, l: int :: y < yi && minlag <= l <= 0 ==> MeansB(plan, model.eqs.AsModel(), diffB, 0, y, l)
      {
        var ll := minlag;
        while ll <= 0
          invariant Deriving() && minlag <= ll
          invariant forall y: nat, l: int :: (y < yi && minlag <= l <= 0) || (y == yi && minlag <= l < ll) ==> MeansB(plan, model.eqs.AsModel(), diffB, 0, y, l)
          decreases 1 - ll
        {
          ghost var m, cells := model.eqs.AsModel(), diffB;
          var d := DerivativeCell(tb, ys[yi], ll);
          diffB := diffB[(yi, ll) := d];
          model.Parts();
          forall y: nat, l: int | (y < yi && minlag <= l <= 0) || (y == yi && minlag <= l < ll + 1)
            ensures MeansB(plan, model.eqs.AsModel(), diffB, 0, y, l)
          {
            if (y, l) != (yi, ll) {
              assert MeansB(plan, m, cells, 0, y, l);
              MeansGrows(plan.m0, m, model.eqs.AsModel(), cells[(y, l)], SpecB(plan, 0, y, l));
            }
          }
          ll := ll + 1;
        }
      }
    }

    method AddDerivativesOfF()
      requires Deriving() && PassB(plan, model.eqs.AsModel(), diffB, minlag, 0, {})
      modifies this`diffF, model.eqs.otree
      ensures Deriving() && PassB(plan, model.eqs.AsModel(), diffB, minlag, 0, {})
      ensures PassF(plan, model.eqs.AsModel(), diffF, map[], minlag, maxlead, 0, {})
    {
      hide Means, IsModel, DynareModel.Valid, OperationTree.CacheOk, GrowsTo, PassB;
      for yi := 0 to |ys|
        invariant Deriving() && PassB(plan, model.eqs.AsModel(), diffB, minlag, 0, {}) && FilledF(yi, 0, minlag)
      {
        for fi := 0 to |fset|
          invariant Deriving() && PassB(plan, model.eqs.AsModel(), diffB, minlag, 0, {}) && FilledF(yi, fi, minlag)
        {
          var ll := minlag;
          while ll <= maxlead
            invariant Deriving() && PassB(plan, model.eqs.AsModel(), diffB, minlag, 0, {}) && FilledF(yi, fi, ll) && minlag <= ll
            decreases maxlead + 1 - ll
          {
            ghost var m, cells := model.eqs.AsModel(), diffF;
            FormulaBelow(fi);
            var d := DerivativeCell(model.eqs.formulas[fset[fi]], ys[yi], ll);
            diffF := diffF[(yi, fi, ll) := d];
            model.Parts();
            GrownB(plan, m, diffB, minlag, 0, {}, model.eqs.AsModel());
            OneMoreF(m, cells, yi, fi, ll, d);
            ll := ll + 1;
          }
        }
      }
    }

    /** The cells before (yi, fi, ll) have their derivatives. */
    ghost predicate FilledF(yi: nat, fi: nat, ll: int)
      requires Planned()
      reads this, model.eqs, model.eqs.otree, model.eqs.atoms
    {
      FilledCells(plan, model.eqs.AsModel(), diffF, minlag, maxlead, yi, fi, ll)
    }

    lemma OneMoreF(m: Model, cells: map<(nat, nat, int), nat>, yi: nat, fi: nat, ll: int, d: nat)
      requires Planned() && yi < |ys| && fi < |fset| && minlag <= ll <= maxlead && FilledCells(plan, m, cells, minlag, maxlead, yi, fi, ll)
      requires diffF == cells[(yi, fi, ll) := d] && IsModel(model.eqs.AsModel()) && GrowsTo(m, model.eqs.AsModel())
      requires Means(plan.m0, model.eqs.AsModel(), d, SpecF(plan, map[], 0, yi, fi, ll))
      ensures FilledF(yi, fi, ll + 1)
    {
      hide Means, IsModel, GrowsTo, SpecF;
      var m' := model.eqs.AsModel();
      forall y: nat, f: nat, l: int | y < |ys| && f < |fset| && minlag <= l <= maxlead && BeforeF(y, f, l, yi, fi, ll + 1)
        ensures MeansF(plan, m', diffF, map[], 0, y, f, l)
      {
        if (y, f, l) != (yi, fi, ll) {
          assert BeforeF(y, f, l, yi, fi, ll) && MeansF(plan, m, cells, map[], 0, y, f, l);
          MeansGrows(plan.m0, m, m', cells[(y, f, l)], SpecF(plan, map[], 0, y, f, l));
        }
      }
    }

    lemma FormulaBelow(fi: nat)
      requires Deriving() && fi < |fset|
      ensures model.eqs.formulas == plan.m0.formulas && fset[fi] < |plan.m0.formulas| && plan.m0.formulas[fset[fi]] < |plan.m0.terms|
    {
    }

    // ----- the passes over the matrices -----

    /** The matrices, kB and kF passes done, and some cells one more; md is the model after the derivatives. */
    ghost predicate Holding(md: Model, bound: int, kB: nat, doneB: set<(nat, int)>, auxOf: map<(nat, nat, int), string>, kF: nat, doneF: set<(nat, nat, int)>)
      reads this, model.eqs, model.eqs.otree, model.eqs.atoms
    {
      && Planned() && model.Valid() && AllNamed(md, bound) && GrowsTo(md, model.eqs.AsModel()) && md.params == plan.m0.params
      && bound >= 0 && AllNamed(model.eqs.AsModel(), 2 * bound) && NamesIn(md, plan.names) && plan.names <= model.eqs.atoms.varnames
      && PassB(plan, model.eqs.AsModel(), diffB, minlag, kB, doneB)
      && PassF(plan, model.eqs.AsModel(), diffF, auxOf, minlag, maxlead, kF, doneF)
    }

    /** A term of the model after the derivatives, shifted. */
    method ShiftCell(t: nat, d: int, ghost md: Model, ghost bound: int, ghost g: Spec) returns (r: nat)
      requires model.Valid() && AllNamed(md, bound) && GrowsTo(md, model.eqs.AsModel()) && t < |md.terms|
      requires -bound <= d <= bound <= 0x2000_0000 && Means(plan.m0, model.eqs.AsModel(), t, g)
      modifies model.eqs.otree, model.eqs.atoms`vars, model.eqs.atoms`indices, model.eqs.atoms`nv, model.eqs.atoms`minlag, model.eqs.atoms`maxlead
      ensures model.Valid() && GrowsTo(old(model.eqs.AsModel()), model.eqs.AsModel()) && model.eqs.formulas == old(model.eqs.formulas)
      ensures Means(plan.m0, model.eqs.AsModel(), r, Shift(g, d)) && LeafGrowth(old(model.eqs.AsModel()), model.eqs.AsModel(), 2 * bound)
    {
      hide *;
      ghost var m := model.eqs.AsModel();
      model.Parts();
      OldTerm(md, m, t, bound);
      ghost var m1, sourcemap, subst;
      r, m1, sourcemap, subst := model.ShiftTerm(t, d, bound);
      model.Parts();
      ShiftMeans(plan.m0, m, m1, model.eqs.AsModel(), sourcemap, model.eqs.otree.opmap, subst, t, r, d, g);
    }

    /** The same, where zero is left alone. */
    method ShiftUnlessZero(t: nat, d: int, ghost md: Model, ghost bound: int, ghost g: Spec) returns (r: nat)
      requires model.Valid() && AllNamed(md, bound) && GrowsTo(md, model.eqs.AsModel()) && t < |md.terms|
      requires -bound <= d <= bound <= 0x2000_0000 && Means(plan.m0, model.eqs.AsModel(), t, g)
      modifies model.eqs.otree, model.eqs.atoms`vars, model.eqs.atoms`indices, model.eqs.atoms`nv, model.eqs.atoms`minlag, model.eqs.atoms`maxlead
      ensures model.Valid() && GrowsTo(old(model.eqs.AsModel()), model.eqs.AsModel()) && model.eqs.formulas == old(model.eqs.formulas)
      ensures Means(plan.m0, model.eqs.AsModel(), r, Shift(g, d)) && LeafGrowth(old(model.eqs.AsModel()), model.eqs.AsModel(), 2 * bound)
    {
      hide *;
      ghost var m := model.eqs.AsModel();
      if t == ZERO {
        SelfGrows(m);
        ZeroStays(plan.m0, m, g, d, Value(0.0));
        return t;
      }
      r := ShiftCell(t, d, md, bound, g);
    }

    method ShiftDerivativesOfB(ghost md: Model, ghost bound: int)
      requires Holding(md, bound, 0, {}, map[], 0, {}) && PassB(plan, md, diffB, minlag, 0, {}) && -minlag <= bound <= 0x2000_0000
      modifies this`diffB, model.eqs.otree, model.eqs.atoms`vars, model.eqs.atoms`indices, model.eqs.atoms`nv, model.eqs.atoms`minlag, model.eqs.atoms`maxlead
      ensures Holding(md, bound, 1, {}, map[], 0, {}) && model.eqs.formulas == old(model.eqs.formulas)
      ensures model.eqs.atoms.varnames == old(model.eqs.atoms.varnames)
    {
      hide Means, IsModel, DynareModel.Valid, GrowsTo, PassB, PassF, SpecB, SpecF, AllNamed;
      ghost var cells0 := diffB;
      ghost var done: set<(nat, int)> := {};
      KeysB(md, cells0);
      for yi := 0 to |ys|
        invariant Holding(md, bound, 0, done, map[], 0, {}) && model.eqs.formulas == old(model.eqs.formulas)
        invariant forall y: nat, l: int :: y < |ys| && minlag <= l <= 0 ==> ((y, l) in done <==> y < yi)
        invariant forall y: nat, l: int :: yi <= y < |ys| && minlag <= l <= 0 ==> (y, l) in diffB && (y, l) in cells0 && diffB[(y, l)] == cells0[(y, l)]
        invariant PassB(plan, md, cells0, minlag, 0, {})
      {
        var ll := minlag;
        while ll < 0
          invariant Holding(md, bound, 0, done, map[], 0, {}) && (minlag <= ll <= 0 || ll == minlag) && model.eqs.formulas == old(model.eqs.formulas)
          invariant forall y: nat, l: int :: y < |ys| && minlag <= l <= 0 ==> ((y, l) in done <==> y < yi || (y == yi && l < ll))
          invariant forall y: nat, l: int :: yi <= y < |ys| && minlag <= l <= 0 && (y == yi ==> l >= ll) ==> (y, l) in diffB && (y, l) in cells0 && diffB[(y, l)] == cells0[(y, l)]
          decreases -ll
        {
          done := ShiftOneB(yi, ll, md, bound, done, cells0);
          ll := ll + 1;
        }
        if minlag <= 0 {
          CellOfB(yi, 0, done, 0);
          KeepB(yi, md, bound, done);
          done := done + {(yi, 0)};
        }
      }
      PassedB(plan, model.eqs.AsModel(), diffB, minlag, 0, done);
    }

    method ShiftOneB(yi: nat, ll: int, ghost md: Model, ghost bound: int, ghost done: set<(nat, int)>, ghost cells0: map<(nat, int), nat>)
      returns (ghost more: set<(nat, int)>)
      requires Holding(md, bound, 0, done, map[], 0, {}) && yi < |ys| && minlag <= ll < 0 && (yi, ll) !in done && -minlag <= bound <= 0x2000_0000
      requires (yi, ll) in diffB && (yi, ll) in cells0 && diffB[(yi, ll)] == cells0[(yi, ll)] && PassB(plan, md, cells0, minlag, 0, {})
      modifies this`diffB, model.eqs.otree, model.eqs.atoms`vars, model.eqs.atoms`indices, model.eqs.atoms`nv, model.eqs.atoms`minlag, model.eqs.atoms`maxlead
      ensures more == done + {(yi, ll)} && Holding(md, bound, 0, more, map[], 0, {}) && model.eqs.formulas == old(model.eqs.formulas)
      ensures forall y: nat, l: int :: (y, l) != (yi, ll) && (y, l) in old(diffB) ==> (y, l) in diffB && diffB[(y, l)] == old(diffB)[(y, l)]
    {
      hide Means, IsModel, DynareModel.Valid, GrowsTo, PassB, PassF, SpecB, SpecF, AllNamed, LeafGrowth;
      ghost var m, cells := model.eqs.AsModel(), diffB;
      CellOfB(yi, ll, done, 0);
      OldCellB(md, cells0, yi, ll);
      ShiftSpecB(yi, ll);
      var t := diffB[(yi, ll)];
      model.Parts();
      var r := ShiftUnlessZero(t, -ll, md, bound, SpecB(plan, 0, yi, ll));
      diffB := diffB[(yi, ll) := r];
      model.Parts();
      StillNamed(m, model.eqs.AsModel(), 2 * bound);
      more := done + {(yi, ll)};
      StepB(plan, m, cells, minlag, 0, done, model.eqs.AsModel(), yi, ll, diffB[(yi, ll)]);
      GrownF(plan, m, diffF, map[], minlag, maxlead, 0, {}, model.eqs.AsModel());
      GrowsToTrans(md, m, model.eqs.AsModel());
    }

    lemma SelfGrows(m: Model)
      ensures GrowsTo(m, m) && NoNewLeaves(m.terms, m.terms) && forall b: int :: LeafGrowth(m, m, b)
    {
    }

    /** The cell at lead zero is not shifted. */
    lemma KeepB(yi: nat, md: Model, bound: int, done: set<(nat, int)>)
      requires Holding(md, bound, 0, done, map[], 0, {}) && yi < |ys| && minlag <= 0 && (yi, 0) !in done
      ensures Holding(md, bound, 0, done + {(yi, 0)}, map[], 0, {})
    {
      hide Means, IsModel, DynareModel.Valid, GrowsTo, PassB, PassF, SpecB, SpecF, AllNamed;
      var m := model.eqs.AsModel();
      CellOfB(yi, 0, done, 0);
      ShiftSpecB(yi, 0);
      ShiftByNothing(plan.m0, m, diffB[(yi, 0)], SpecB(plan, 0, yi, 0));
      SelfGrows(m);
      model.Parts();
      StepB(plan, m, diffB, minlag, 0, done, m, yi, 0, diffB[(yi, 0)]);
      assert diffB[(yi, 0) := diffB[(yi, 0)]] == diffB;
    }

    lemma ShiftSpecB(yi: nat, ll: int)
      requires Planned() && yi < |ys|
      ensures SpecB(plan, 1, yi, ll) == Shift(SpecB(plan, 0, yi, ll), -ll)
    {
    }

    lemma CellOfB(yi: nat, ll: int, done: set<(nat, int)>, k: nat)
      requires Planned() && PassB(plan, model.eqs.AsModel(), diffB, minlag, k, done) && yi < |ys| && minlag <= ll <= 0
      ensures (yi, ll) in diffB && Means(plan.m0, model.eqs.AsModel(), diffB[(yi, ll)], SpecB(plan, StageB(k, done, yi, ll), yi, ll))
    {
      hide Means, SpecB;
      assert MeansB(plan, model.eqs.AsModel(), diffB, StageB(k, done, yi, ll), yi, ll);
    }

    lemma KeysB(md: Model, cells0: map<(nat, int), nat>)
      requires Planned() && PassB(plan, md, cells0, minlag, 0, {})
      ensures forall y: nat, l: int :: y < |ys| && minlag <= l <= 0 ==> (y, l) in cells0
    {
      hide SpecB, Means;
      forall y: nat, l: int | y < |ys| && minlag <= l <= 0
        ensures (y, l) in cells0
      {
        assert MeansB(plan, md, cells0, StageB(0, {}, y, l), y, l);
      }
    }

    lemma OldCellB(md: Model, cells0: map<(nat, int), nat>, yi: nat, ll: int)
      requires Planned() && PassB(plan, md, cells0, minlag, 0, {}) && yi < |ys| && minlag <= ll <= 0
      ensures (yi, ll) in cells0 && cells0[(yi, ll)] < |md.terms|
    {
      hide SpecB;
      assert MeansB(plan, md, cells0, StageB(0, {}, yi, ll), yi, ll);
    }

    /** An auxiliary variable for a lagged derivative that reads the future: its leaf at time zero and the one that replaces the cell. */
    method MakeAux(name: string, lead: int) returns (ok: bool, leaded: nat)
      requires model.Valid() && InRange(lead)
      modifies model.eqs.otree, model.eqs.atoms
      ensures model.Valid() && ok == (name !in old(model.eqs.atoms.varnames)) && model.eqs.formulas == old(model.eqs.formulas)
      ensures GrowsTo(old(model.eqs.AsModel()), model.eqs.AsModel()) && LeafGrowth(old(model.eqs.AsModel()), model.eqs.AsModel(), Abs(lead))
      ensures !ok ==> model.eqs.atoms.varnames == old(model.eqs.atoms.varnames)
      ensures ok ==> model.eqs.atoms.varnames == old(model.eqs.atoms.varnames) + {name} && name !in model.eqs.AsModel().params
      ensures ok ==> HasLeaf(model.eqs.AsModel(), Atom(name, 0)) && leaded in model.eqs.AsModel().atoms && model.eqs.AsModel().atoms[leaded] == Atom(name, lead)
    {
      hide OperationTree.Shape, Spans, IsModel, GrowsTo, Matched, ConstantsApart, DynamicAtoms.Valid, LeafGrowth;
      ghost var m := model.eqs.AsModel();
      SelfGrows(m);
      leaded := ZERO;
      ok := model.Declare(name);
      if !ok {
        return;
      }
      var taux := model.LeafOf(Atom(name, 0));
      ghost var m1 := model.eqs.AsModel();
      var taux_leaded := model.LeafOf(Atom(name, lead));
      leaded := taux_leaded.value;
      GrowsToTrans(m, m1, model.eqs.AsModel());
      LeafGrowthMore(m, m1, Abs(0), Abs(lead));
      LeafGrowthTrans(m, m1, model.eqs.AsModel(), Abs(lead));
      LeafStays(m1, model.eqs.AsModel(), Atom(name, 0));
    }

    /** The auxiliary variables stand for the derivatives of their cells. */
    ghost predicate AuxOk(auxOf: map<(nat, nat, int), string>)
      requires Planned()
      reads this, model.eqs, model.eqs.otree, model.eqs.atoms
    {
      && AuxMeans(plan, model.eqs.AsModel(), auxMap, auxOf)
      && (forall n: string :: n in auxMap ==> n in model.eqs.atoms.varnames && n !in plan.m0.params)
    }

    method ShiftDerivativesOfF(ghost md: Model, ghost bound: int) returns (ok: bool, ghost auxOf: map<(nat, nat, int), string>)
      requires Holding(md, bound, 1, {}, map[], 0, {}) && PassF(plan, md, diffF, map[], minlag, maxlead, 0, {}) && auxMap == map[]
      requires -minlag <= bound <= 0x2000_0000 && maxlead <= bound && minlag <= 0 <= maxlead
      modifies this`diffF, this`auxMap, model.eqs.otree, model.eqs.atoms
      ensures model.Valid() && model.eqs.formulas == old(model.eqs.formulas)
      ensures Distinct(fset) && AuxFree(old(model.eqs.atoms.varnames)) ==> ok
      ensures ok ==> Holding(md, bound, 1, {}, auxOf, 1, {}) && AuxOk(auxOf)
      ensures ok ==> forall n: string :: n in model.eqs.atoms.varnames ==> n in old(model.eqs.atoms.varnames) || IsLagName(n)
    {
      hide Means, IsModel, DynareModel.Valid, GrowsTo, PassB, PassF, SpecB, SpecF, AllNamed, AuxMeans, AuxFree, IsCellName, CellNames;
      ghost var names0 := model.eqs.atoms.varnames;
      NoCellNames(names0);
      ghost var cells0 := diffF;
      ghost var done: set<(nat, nat, int)> := {};
      auxOf := map[];
      ok := true;
      KeysF(md, cells0);
      NoAuxYet();
      for yi := 0 to |ys|
        invariant ok && Holding(md, bound, 1, {}, auxOf, 0, done) && AuxOk(auxOf) && model.eqs.formulas == old(model.eqs.formulas)
        invariant CellNames(fset, names0, model.eqs.atoms.varnames, done)
        invariant Shifting(done, auxOf, cells0, yi, 0, minlag, false)
      {
        for fi := 0 to |fset|
          invariant ok && Holding(md, bound, 1, {}, auxOf, 0, done) && AuxOk(auxOf) && model.eqs.formulas == old(model.eqs.formulas)
          invariant CellNames(fset, names0, model.eqs.atoms.varnames, done)
          invariant Shifting(done, auxOf, cells0, yi, fi, minlag, false)
        {
          assert Shifting(done, auxOf, cells0, yi, fi, 0, true);
          for ll := 0 to maxlead + 1
            invariant ok && Holding(md, bound, 1, {}, auxOf, 0, done) && AuxOk(auxOf) && model.eqs.formulas == old(model.eqs.formulas)
            invariant CellNames(fset, names0, model.eqs.atoms.varnames, done)
            invariant Shifting(done, auxOf, cells0, yi, fi, ll, true)
          {
            ok, done, auxOf := ShiftOneF(yi, fi, ll, md, bound, done, auxOf, cells0, names0);
            if !ok {
              return;
            }
          }
          var ll := minlag;
          assert Lagging(done, auxOf, cells0, yi, fi, ll);
          while ll < 0
            invariant ok && Holding(md, bound, 1, {}, auxOf, 0, done) && AuxOk(auxOf) && model.eqs.formulas == old(model.eqs.formulas)
            invariant CellNames(fset, names0, model.eqs.atoms.varnames, done)
            invariant Lagging(done, auxOf, cells0, yi, fi, ll) && minlag <= ll <= 0
            decreases -ll
          {
            ok, done, auxOf := ShiftOneF(yi, fi, ll, md, bound, done, auxOf, cells0, names0);
            if !ok {
              return;
            }
            ll := ll + 1;
          }
        }
      }
      PassedF(plan, model.eqs.AsModel(), diffF, auxOf, minlag, maxlead, 0, done);
      CellNamesAreLagNames(fset, names0, model.eqs.atoms.varnames, done);
    }

    lemma NoCellNames(names: set<string>)
      ensures CellNames(fset, names, names, {})
    {
    }

    /** The cells of earlier pairs, and those of this pair with a lead from zero below ll when leading, have been shifted; the others are as they were. */
    ghost predicate Shifting(done: set<(nat, nat, int)>, auxOf: map<(nat, nat, int), string>, cells0: map<(nat, nat, int), nat>, yi: nat, fi: nat, ll: int, leading: bool)
      reads this
    {
      && (forall y: nat, f: nat, l: int :: y < |ys| && f < |fset| && minlag <= l <= maxlead ==>
           ((y, f, l) in done <==> y < yi || (y == yi && (f < fi || (f == fi && leading && 0 <= l < ll)))))
      && Untouched(done, auxOf, cells0)
    }

    /** The cells of this pair with a lead from zero on, and with a lag before ll, have been shifted. */
    ghost predicate Lagging(done: set<(nat, nat, int)>, auxOf: map<(nat, nat, int), string>, cells0: map<(nat, nat, int), nat>, yi: nat, fi: nat, ll: int)
      reads this
    {
      && (forall y: nat, f: nat, l: int :: y < |ys| && f < |fset| && minlag <= l <= maxlead ==>
           ((y, f, l) in done <==> y < yi || (y == yi && (f < fi || (f == fi && (l >= 0 || l < ll))))))
      && Untouched(done, auxOf, cells0)
    }

    ghost predicate Untouched(done: set<(nat, nat, int)>, auxOf: map<(nat, nat, int), string>, cells0: map<(nat, nat, int), nat>)
      reads this
    {
      && (forall y: nat, f: nat, l: int :: y < |ys| && f < |fset| && minlag <= l <= maxlead && (y, f, l) !in done ==>
           (y, f, l) in diffF && (y, f, l) in cells0 && diffF[(y, f, l)] == cells0[(y, f, l)])
      && (forall cell: (nat, nat, int) :: cell in auxOf ==> cell in done)
    }

    method ShiftCellF(yi: nat, fi: nat, ll: int, ghost md: Model, ghost bound: int, ghost done: set<(nat, nat, int)>,
                     ghost auxOf: map<(nat, nat, int), string>, ghost cells0: map<(nat, nat, int), nat>)
      returns (ok: bool, ghost more: set<(nat, nat, int)>, ghost auxes: map<(nat, nat, int), string>)
      requires Holding(md, bound, 1, {}, auxOf, 0, done) && AuxOk(auxOf) && yi < |ys| && fi < |fset| && minlag <= ll <= maxlead
      requires (yi, fi, ll) !in done && Untouched(done, auxOf, cells0) && PassF(plan, md, cells0, map[], minlag, maxlead, 0, {})
      requires -minlag <= bound <= 0x2000_0000 && maxlead <= bound
      modifies this`diffF, this`auxMap, model.eqs.otree, model.eqs.atoms
      ensures model.Valid() && model.eqs.formulas == old(model.eqs.formulas)
      ensures (ll < 0 ==> AuxLagName(yi, fset[fi], -ll) !in old(model.eqs.atoms.varnames)) ==> ok
      ensures forall n: string :: n in model.eqs.atoms.varnames ==> n in old(model.eqs.atoms.varnames) || (ll < 0 && n == AuxLagName(yi, fset[fi], -ll))
      ensures ok ==> more == done + {(yi, fi, ll)} && Holding(md, bound, 1, {}, auxes, 0, more) && AuxOk(auxes) && Untouched(more, auxes, cells0)
    {
      hide Means, IsModel, DynareModel.Valid, GrowsTo, PassB, PassF, SpecB, SpecF, AllNamed, AuxMeans, AuxLagName, LeafGrowth;
      ghost var m, cells := model.eqs.AsModel(), diffF;
      more, auxes := done + {(yi, fi, ll)}, auxOf;
      var ft := diffF[(yi, fi, ll)];
      CellOfF(md, cells0, auxOf, done, yi, fi, ll);
      SameParams(md, m);
      model.Parts();
      var r;
      ok, r, auxes := ShiftedCell(yi, fi, ll, ft, md, bound, auxOf);
      if !ok {
        return;
      }
      diffF := diffF[(yi, fi, ll) := r];
      model.Parts();
      StillNamed(m, model.eqs.AsModel(), 2 * bound);
      AuxPass(plan, m, cells, auxOf, auxes, minlag, maxlead, done, yi, fi, ll);
      StepF(plan, m, cells, auxes, minlag, maxlead, 0, done, model.eqs.AsModel(), yi, fi, ll, r);
      GrownB(plan, m, diffB, minlag, 1, {}, model.eqs.AsModel());
      GrowsToTrans(md, m, model.eqs.AsModel());
    }

    /** Shifts one cell; fails only when the name of its auxiliary variable is taken. */
    method ShiftOneF(yi: nat, fi: nat, ll: int, ghost md: Model, ghost bound: int, ghost done: set<(nat, nat, int)>,
                     ghost auxOf: map<(nat, nat, int), string>, ghost cells0: map<(nat, nat, int), nat>, ghost names0: set<string>)
      returns (ok: bool, ghost more: set<(nat, nat, int)>, ghost auxes: map<(nat, nat, int), string>)
      requires Holding(md, bound, 1, {}, auxOf, 0, done) && AuxOk(auxOf) && yi < |ys| && fi < |fset| && minlag <= ll <= maxlead
      requires (yi, fi, ll) !in done && Untouched(done, auxOf, cells0) && PassF(plan, md, cells0, map[], minlag, maxlead, 0, {})
      requires -minlag <= bound <= 0x2000_0000 && maxlead <= bound && CellNames(fset, names0, model.eqs.atoms.varnames, done)
      modifies this`diffF, this`auxMap, model.eqs.otree, model.eqs.atoms
      ensures model.Valid() && model.eqs.formulas == old(model.eqs.formulas) && (Distinct(fset) && AuxFree(names0) ==> ok)
      ensures ok ==> more == done + {(yi, fi, ll)} && Holding(md, bound, 1, {}, auxes, 0, more) && AuxOk(auxes) && Untouched(more, auxes, cells0)
      ensures ok ==> CellNames(fset, names0, model.eqs.atoms.varnames, more)
    {
      hide *;
      ghost var names := model.eqs.atoms.varnames;
      if ll < 0 {
        CellStillFree(fset, names0, names, done, yi, fi, ll);
      }
      ok, more, auxes := ShiftCellF(yi, fi, ll, md, bound, done, auxOf, cells0);
      CellNamesMore(fset, names0, names, done, yi, fi, ll, model.eqs.atoms.varnames);
    }

    /** The cell is a lagged derivative with a lead. */
    method ReadsFuture(ll: int, ft: nat, ghost md: Model, ghost bound: int) returns (future: bool)
      requires model.Valid() && AllNamed(md, bound) && GrowsTo(md, model.eqs.AsModel()) && ft < |md.terms|
      ensures IsModel(model.eqs.AsModel()) && ft < |model.eqs.AsModel().terms|
      ensures future <==> ll < 0 && ft != ZERO && !LeadsUpTo(model.eqs.AsModel(), ft, 0)
    {
      hide IsModel, DynareModel.Valid, GrowsTo, AllNamed, Closed, SmallLeads, Spans, LeadsUpTo;
      ghost var m := model.eqs.AsModel();
      model.Parts();
      OldTerm(md, m, ft, bound);
      if ll >= 0 || ft == ZERO {
        return false;
      }
      var ft_maxlead, ft_minlag := model.Termspan(ft);
      LeadsBySpan(m, ft, ft_minlag, ft_maxlead, 0);
      return ft_maxlead > 0;
    }

    /** What a cell becomes: shifted in place, or the lead of an auxiliary variable when a lagged derivative reads the future. */
    method ShiftedCell(yi: nat, fi: nat, ll: int, ft: nat, ghost md: Model, ghost bound: int, ghost auxOf: map<(nat, nat, int), string>)
      returns (ok: bool, r: nat, ghost auxes: map<(nat, nat, int), string>)
      requires model.Valid() && Planned() && AuxOk(auxOf) && yi < |ys| && fi < |fset| && minlag <= ll <= maxlead && (yi, fi, ll) !in auxOf
      requires AllNamed(md, bound) && GrowsTo(md, model.eqs.AsModel()) && md.params == plan.m0.params && ft < |md.terms|
      requires -minlag <= bound <= 0x2000_0000 && maxlead <= bound && model.eqs.AsModel().params == plan.m0.params
      requires Means(plan.m0, model.eqs.AsModel(), ft, SpecF(plan, auxOf, 0, yi, fi, ll))
      requires NamesIn(md, plan.names) && plan.names <= model.eqs.atoms.varnames
      modifies this`auxMap, model.eqs.otree, model.eqs.atoms
      ensures model.Valid() && model.eqs.formulas == old(model.eqs.formulas) && GrowsTo(old(model.eqs.AsModel()), model.eqs.AsModel())
      ensures (ll < 0 ==> AuxLagName(yi, fset[fi], -ll) !in old(model.eqs.atoms.varnames)) ==> ok
      ensures forall n: string :: n in model.eqs.atoms.varnames ==> n in old(model.eqs.atoms.varnames) || (ll < 0 && n == AuxLagName(yi, fset[fi], -ll))
      ensures old(model.eqs.atoms.varnames) <= model.eqs.atoms.varnames && LeafGrowth(old(model.eqs.AsModel()), model.eqs.AsModel(), 2 * bound)
      ensures ok ==> AuxOk(auxes) && Means(plan.m0, model.eqs.AsModel(), r, SpecF(plan, auxes, 1, yi, fi, ll))
      ensures forall cell: (nat, nat, int) :: cell != (yi, fi, ll) ==> (cell in auxes <==> cell in auxOf) && (cell in auxOf ==> auxes[cell] == auxOf[cell])
    {
      hide Means, IsModel, DynareModel.Valid, GrowsTo, SpecF, AllNamed, AuxMeans, Closed, SmallLeads, LeafGrowth, TermNames;
      ghost var m := model.eqs.AsModel();
      auxes, ok := auxOf, true;
      var future := ReadsFuture(ll, ft, md, bound);
      model.Parts();
      if future {
        NamedIsModel(md, bound);
        OldTermNames(md, m, ft, plan.names);
        ok, r, auxes := AuxForCell(yi, fi, ll, ft, auxOf);
        LeafGrowthMore(m, model.eqs.AsModel(), -ll, 2 * bound);
      } else {
        r := ShiftInPlace(yi, fi, ll, ft, md, bound, auxOf);
      }
    }

    /** The derivative of one cell, shifted; zero is left alone. */
    method ShiftInPlace(yi: nat, fi: nat, ll: int, ft: nat, ghost md: Model, ghost bound: int, ghost auxOf: map<(nat, nat, int), string>) returns (r: nat)
      requires model.Valid() && Planned() && AuxOk(auxOf) && yi < |ys| && fi < |fset| && minlag <= ll <= maxlead && (yi, fi, ll) !in auxOf
      requires AllNamed(md, bound) && GrowsTo(md, model.eqs.AsModel()) && ft < |md.terms|
      requires -minlag <= bound <= 0x2000_0000 && maxlead <= bound
      requires Means(plan.m0, model.eqs.AsModel(), ft, SpecF(plan, auxOf, 0, yi, fi, ll))
      modifies model.eqs.otree, model.eqs.atoms`vars, model.eqs.atoms`indices, model.eqs.atoms`nv, model.eqs.atoms`minlag, model.eqs.atoms`maxlead
      ensures model.Valid() && model.eqs.formulas == old(model.eqs.formulas) && GrowsTo(old(model.eqs.AsModel()), model.eqs.AsModel())
      ensures AuxOk(auxOf) && Means(plan.m0, model.eqs.AsModel(), r, SpecF(plan, auxOf, 1, yi, fi, ll))
      ensures LeafGrowth(old(model.eqs.AsModel()), model.eqs.AsModel(), 2 * bound)
    {
      hide Means, IsModel, DynareModel.Valid, GrowsTo, SpecF, AllNamed, AuxMeans, LeafGrowth;
      ghost var m := model.eqs.AsModel();
      SpecOne(auxOf, yi, fi, ll);
      model.Parts();
      r := ShiftUnlessZero(ft, -ll, md, bound, SpecF(plan, auxOf, 0, yi, fi, ll));
      model.Parts();
      AuxMeansGrows(plan, m, auxMap, auxOf, model.eqs.AsModel());
    }

    /** An auxiliary variable for one cell. */
    method AuxForCell(yi: nat, fi: nat, ll: int, ft: nat, ghost auxOf: map<(nat, nat, int), string>)
      returns (ok: bool, r: nat, ghost auxes: map<(nat, nat, int), string>)
      requires model.Valid() && Planned() && AuxOk(auxOf) && yi < |ys| && fi < |fset| && ll < 0 && InRange(-ll) && (yi, fi, ll) !in auxOf
      requires Means(plan.m0, model.eqs.AsModel(), ft, SpecF(plan, auxOf, 0, yi, fi, ll)) && model.eqs.AsModel().params == plan.m0.params
      requires TermNames(model.eqs.AsModel(), ft, plan.names) && plan.names <= model.eqs.atoms.varnames
      modifies this`auxMap, model.eqs.otree, model.eqs.atoms
      ensures model.Valid() && model.eqs.formulas == old(model.eqs.formulas) && GrowsTo(old(model.eqs.AsModel()), model.eqs.AsModel())
      ensures (ll < 0 ==> AuxLagName(yi, fset[fi], -ll) !in old(model.eqs.atoms.varnames)) ==> ok
      ensures forall n: string :: n in model.eqs.atoms.varnames ==> n in old(model.eqs.atoms.varnames) || (ll < 0 && n == AuxLagName(yi, fset[fi], -ll))
      ensures old(model.eqs.atoms.varnames) <= model.eqs.atoms.varnames && LeafGrowth(old(model.eqs.AsModel()), model.eqs.AsModel(), -ll)
      ensures ok ==> AuxOk(auxes) && Means(plan.m0, model.eqs.AsModel(), r, SpecF(plan, auxes, 1, yi, fi, ll))
      ensures forall cell: (nat, nat, int) :: cell != (yi, fi, ll) ==> (cell in auxes <==> cell in auxOf) && (cell in auxOf ==> auxes[cell] == auxOf[cell])
    {
      hide Means, IsModel, DynareModel.Valid, GrowsTo, SpecF, AuxMeans, LeafGrowth, TermNames;
      ghost var m := model.eqs.AsModel();
      auxes := auxOf;
      model.Parts();
      var name := AuxLagName(yi, fset[fi], -ll);
      ok, r := MakeAux(name, -ll);
      if !ok {
        return;
      }
      auxes := auxOf[(yi, fi, ll) := name];
      model.Parts();
      SameParams(m, model.eqs.AsModel());
      AuxCell(m, auxOf, yi, fi, ll, name, ft, r);
      SpecOne(auxes, yi, fi, ll);
      auxMap := auxMap[name := ft];
    }

    lemma SameParams(m: Model, m': Model)
      requires GrowsTo(m, m')
      ensures m'.params == m.params
    {
    }

    lemma KeysF(md: Model, cells0: map<(nat, nat, int), nat>)
      requires Planned() && PassF(plan, md, cells0, map[], minlag, maxlead, 0, {}) && diffF == cells0
      ensures Untouched({}, map[], cells0)
    {
      hide SpecF, Means;
      forall y: nat, f: nat, l: int | y < |ys| && f < |fset| && minlag <= l <= maxlead
        ensures (y, f, l) in cells0
      {
        assert MeansF(plan, md, cells0, map[], StageF(0, {}, y, f, l), y, f, l);
      }
    }

    lemma NoAuxYet()
      requires Planned() && auxMap == map[]
      ensures AuxOk(map[])
    {
    }

    lemma CellOfF(md: Model, cells0: map<(nat, nat, int), nat>, auxOf: map<(nat, nat, int), string>, done: set<(nat, nat, int)>, yi: nat, fi: nat, ll: int)
      requires Planned() && PassF(plan, md, cells0, map[], minlag, maxlead, 0, {}) && Untouched(done, auxOf, cells0)
      requires PassF(plan, model.eqs.AsModel(), diffF, auxOf, minlag, maxlead, 0, done)
      requires yi < |ys| && fi < |fset| && minlag <= ll <= maxlead && (yi, fi, ll) !in done
      ensures (yi, fi, ll) in diffF && diffF[(yi, fi, ll)] < |md.terms|
      ensures Means(plan.m0, model.eqs.AsModel(), diffF[(yi, fi, ll)], SpecF(plan, auxOf, 0, yi, fi, ll))
    {
      hide SpecF;
      assert MeansF(plan, md, cells0, map[], StageF(0, {}, yi, fi, ll), yi, fi, ll);
      assert MeansF(plan, model.eqs.AsModel(), diffF, auxOf, StageF(0, done, yi, fi, ll), yi, fi, ll);
    }

    lemma SpecOne(auxes: map<(nat, nat, int), string>, yi: nat, fi: nat, ll: int)
      requires Planned() && yi < |ys| && fi < |fset|
      ensures SpecF(plan, auxes, 1, yi, fi, ll) ==
        if (yi, fi, ll) in auxes then Variable(auxes[(yi, fi, ll)], -ll) else Shift(SpecF(plan, auxes, 0, yi, fi, ll), -ll)
    {
    }

    lemma SpecZero(auxOf: map<(nat, nat, int), string>, auxes: map<(nat, nat, int), string>, yi: nat, fi: nat, ll: int)
      requires Planned() && yi < |ys| && fi < |fset|
      ensures SpecF(plan, auxOf, 0, yi, fi, ll) == SpecF(plan, auxes, 0, yi, fi, ll) == SpecF(plan, map[], 0, yi, fi, ll)
    {
    }

    lemma AuxCell(m: Model, auxOf: map<(nat, nat, int), string>, yi: nat, fi: nat, ll: int, name: string, ft: nat, r: nat)
      requires Planned() && IsModel(model.eqs.AsModel()) && GrowsTo(m, model.eqs.AsModel()) && yi < |ys| && fi < |fset|
      requires AuxMeans(plan, m, auxMap, auxOf) && (yi, fi, ll) !in auxOf && name !in auxMap && name !in model.eqs.AsModel().params
      requires Means(plan.m0, m, ft, SpecF(plan, auxOf, 0, yi, fi, ll)) && IsModel(m) && TermNames(m, ft, plan.names) && name !in plan.names
      requires ll < 0 && name == AuxLagName(yi, fset[fi], -ll)
      requires r in model.eqs.AsModel().atoms && model.eqs.AsModel().atoms[r] == Atom(name, -ll) && HasLeaf(model.eqs.AsModel(), Atom(name, 0))
      ensures AuxMeans(plan, model.eqs.AsModel(), auxMap[name := ft], auxOf[(yi, fi, ll) := name])
      ensures Means(plan.m0, model.eqs.AsModel(), r, Variable(name, -ll))
    {
      hide Means, SpecF, IsModel, GrowsTo, AuxMeans, TermNames, AuxLagName;
      SpecZero(auxOf, auxOf, yi, fi, ll);
      MeansGrows(plan.m0, m, model.eqs.AsModel(), ft, SpecF(plan, auxOf, 0, yi, fi, ll));
      TermNamesGrow(m, model.eqs.AsModel(), ft, plan.names);
      AuxMeansMore(plan, m, auxMap, auxOf, model.eqs.AsModel(), (yi, fi, ll), name, ft);
      MeansLeaf(plan.m0, model.eqs.AsModel(), r);
    }

    // ----- discounting -----

    /** Stores an operation on two terms. */
    method Combine(code: BinaryCode, a: nat, b: nat) returns (r: nat)
      requires model.Valid() && a < |model.eqs.otree.terms| && b < |model.eqs.otree.terms|
      modifies model.eqs.otree
      ensures model.Valid() && GrowsTo(old(model.eqs.AsModel()), model.eqs.AsModel()) && r < |model.eqs.otree.terms|
      ensures IsBinary(model.eqs.otree.terms, code, a, b, r) && NoNewLeaves(old(model.eqs.otree.terms), model.eqs.otree.terms)
    {
      hide *;
      ghost var m := model.eqs.AsModel();
      model.Parts();
      r := model.eqs.AddBinary(code, a, b);
      model.StillValid(m);
      model.Parts();
      TermsGrow(m, model.eqs.AsModel());
    }

    lemma TermsGrow(m: Model, m': Model)
      requires m' == m.(terms := m'.terms) && m.terms <= m'.terms
      ensures GrowsTo(m, m')
    {
    }

    /** Multiplies a term onto a cell unless the cell is zero. */
    method MultiplyCell(a: nat, t: nat, ghost g: Spec, ghost h: Spec) returns (r: nat)
      requires model.Valid() && IsModel(plan.m0)
      requires Means(plan.m0, model.eqs.AsModel(), a, g) && Means(plan.m0, model.eqs.AsModel(), t, h)
      modifies model.eqs.otree
      ensures model.Valid() && GrowsTo(old(model.eqs.AsModel()), model.eqs.AsModel())
      ensures Means(plan.m0, model.eqs.AsModel(), r, Product(g, h)) && NoNewLeaves(old(model.eqs.otree.terms), model.eqs.otree.terms)
    {
      hide *;
      ghost var m := model.eqs.AsModel();
      model.Parts();
      MeansBound(m, a, g);
      MeansBound(m, t, h);
      if t == ZERO {
        SelfGrows(m);
        ZeroStays(plan.m0, m, h, 0, g);
        return t;
      }
      r := Combine(TIMES, a, t);
      model.Parts();
      MeansGrows(plan.m0, m, model.eqs.AsModel(), a, g);
      MeansGrows(plan.m0, m, model.eqs.AsModel(), t, h);
      MeansProduct(plan.m0, model.eqs.AsModel(), a, t, r, g, h);
    }

    lemma MeansBound(m: Model, t: nat, g: Spec)
      requires Means(plan.m0, m, t, g)
      ensures t < |m.terms|
    {
    }

    /** The term of the discount factor stands for it. */
    ghost predicate BetaKnown()
      reads this, model.eqs, model.eqs.otree, model.eqs.atoms
    {
      IsModel(plan.m0) && Means(plan.m0, model.eqs.AsModel(), tbeta, Parameter(plan.beta))
    }

    /** The next power of the discount factor. */
    method NextPower(code: BinaryCode, betaPow: nat, ll: int) returns (r: nat)
      requires model.Valid() && BetaKnown() && Means(plan.m0, model.eqs.AsModel(), betaPow, Discount(plan.beta, ll))
      requires (code == TIMES && ll <= 0) || (code == DIVIDE && ll >= 0)
      modifies model.eqs.otree
      ensures model.Valid() && BetaKnown() && GrowsTo(old(model.eqs.AsModel()), model.eqs.AsModel())
      ensures NoNewLeaves(old(model.eqs.otree.terms), model.eqs.otree.terms)
      ensures Means(plan.m0, model.eqs.AsModel(), r, Discount(plan.beta, if code == TIMES then ll - 1 else ll + 1))
    {
      hide Means, IsModel, DynareModel.Valid, GrowsTo;
      ghost var m := model.eqs.AsModel();
      model.Parts();
      MeansBound(m, betaPow, Discount(plan.beta, ll));
      MeansBound(m, tbeta, Parameter(plan.beta));
      r := Combine(code, betaPow, tbeta);
      model.Parts();
      MeansGrows(plan.m0, m, model.eqs.AsModel(), betaPow, Discount(plan.beta, ll));
      MeansGrows(plan.m0, m, model.eqs.AsModel(), tbeta, Parameter(plan.beta));
      if code == TIMES {
        MeansProduct(plan.m0, model.eqs.AsModel(), betaPow, tbeta, r, Discount(plan.beta, ll), Parameter(plan.beta));
      } else {
        MeansQuotient(plan.m0, model.eqs.AsModel(), betaPow, tbeta, r, Discount(plan.beta, ll), Parameter(plan.beta));
      }
    }

    /** The state while cells are discounted. */
    ghost predicate Discounting(md: Model, bound: int, kB: nat, doneB: set<(nat, int)>, auxOf: map<(nat, nat, int), string>, kF: nat, doneF: set<(nat, nat, int)>)
      reads this, model.eqs, model.eqs.otree, model.eqs.atoms
    {
      Holding(md, bound, kB, doneB, auxOf, kF, doneF) && AuxOk(auxOf) && BetaKnown()
    }

    /** Everything that holds keeps holding when the tree grows. */
    lemma DiscountingGrows(md: Model, bound: int, kB: nat, doneB: set<(nat, int)>, auxOf: map<(nat, nat, int), string>, kF: nat,
                           doneF: set<(nat, nat, int)>, m: Model)
      requires Planned() && model.Valid() && AllNamed(md, bound) && GrowsTo(md, m) && GrowsTo(m, model.eqs.AsModel()) && md.params == plan.m0.params
      requires PassB(plan, m, diffB, minlag, kB, doneB) && PassF(plan, m, diffF, auxOf, minlag, maxlead, kF, doneF)
      requires AuxMeans(plan, m, auxMap, auxOf) && Means(plan.m0, m, tbeta, Parameter(plan.beta))
      requires bound >= 0 && AllNamed(m, 2 * bound) && LeafGrowth(m, model.eqs.AsModel(), 2 * bound)
      requires NamesIn(md, plan.names) && plan.names <= model.eqs.atoms.varnames
      requires forall n: string :: n in auxMap ==> n in model.eqs.atoms.varnames && n !in plan.m0.params
      ensures Discounting(md, bound, kB, doneB, auxOf, kF, doneF)
    {
      hide Means, IsModel, DynareModel.Valid, GrowsTo, PassB, PassF, AllNamed, AuxMeans, LeafGrowth;
      model.Parts();
      NamedIsModel(m, 2 * bound);
      StillNamed(m, model.eqs.AsModel(), 2 * bound);
      GrowsToTrans(md, m, model.eqs.AsModel());
      GrownB(plan, m, diffB, minlag, kB, doneB, model.eqs.AsModel());
      GrownF(plan, m, diffF, auxOf, minlag, maxlead, kF, doneF, model.eqs.AsModel());
      AuxMeansGrows(plan, m, auxMap, auxOf, model.eqs.AsModel());
      MeansGrows(plan.m0, m, model.eqs.AsModel(), tbeta, Parameter(plan.beta));
    }

    lemma NamedIsModel(m: Model, b: int)
      requires AllNamed(m, b)
      ensures IsModel(m)
    {
    }

    /** The next power, in the state while cells are discounted. */
    method AdvancePower(code: BinaryCode, betaPow: nat, ll: int, ghost md: Model, ghost bound: int, ghost kB: nat, ghost doneB: set<(nat, int)>,
                        ghost auxOf: map<(nat, nat, int), string>, ghost doneF: set<(nat, nat, int)>) returns (r: nat)
      requires Discounting(md, bound, kB, doneB, auxOf, 1, doneF) && Means(plan.m0, model.eqs.AsModel(), betaPow, Discount(plan.beta, ll))
      requires (code == TIMES && ll <= 0) || (code == DIVIDE && ll >= 0)
      modifies model.eqs.otree
      ensures Discounting(md, bound, kB, doneB, auxOf, 1, doneF)
      ensures Means(plan.m0, model.eqs.AsModel(), r, Discount(plan.beta, if code == TIMES then ll - 1 else ll + 1))
    {
      hide Means, IsModel, DynareModel.Valid, GrowsTo, PassB, PassF, AllNamed, AuxMeans, SpecB, SpecF;
      ghost var m := model.eqs.AsModel();
      r := NextPower(code, betaPow, ll);
      DiscountingGrows(md, bound, kB, doneB, auxOf, 1, doneF, m);
    }

    /** The first power. */
    lemma PowerOne(md: Model, bound: int, kB: nat, doneB: set<(nat, int)>, auxOf: map<(nat, nat, int), string>, doneF: set<(nat, nat, int)>)
      requires Discounting(md, bound, kB, doneB, auxOf, 1, doneF)
      ensures Planned() && model.Valid() && Means(plan.m0, model.eqs.AsModel(), ONE, Discount(plan.beta, 0))
    {
      hide Means, IsModel, DynareModel.Valid, GrowsTo, PassB, PassF, AllNamed, AuxMeans, SpecB, SpecF;
      model.Parts();
      MeansConstants(plan.m0, model.eqs.AsModel());
    }

    method BetaMultiplyB(ghost md: Model, ghost bound: int, ghost auxOf: map<(nat, nat, int), string>)
      requires Discounting(md, bound, 1, {}, auxOf, 1, {})
      modifies this`diffB, model.eqs.otree
      ensures Discounting(md, bound, 2, {}, auxOf, 1, {})
    {
      hide Means, IsModel, DynareModel.Valid, GrowsTo, PassB, PassF, AllNamed, AuxMeans, SpecB, SpecF;
      ghost var done: set<(nat, int)> := {};
      var betaPow := ONE;
      PowerOne(md, bound, 1, {}, auxOf, {});
      var ll := 0;
      while ll >= minlag
        invariant ll <= 0 && Discounting(md, bound, 1, done, auxOf, 1, {})
        invariant Means(plan.m0, model.eqs.AsModel(), betaPow, Discount(plan.beta, ll))
        invariant forall y: nat, l: int :: y < |ys| && minlag <= l <= 0 ==> ((y, l) in done <==> l > ll)
        decreases ll + 1 - minlag
      {
        for yi := 0 to |ys|
          invariant Discounting(md, bound, 1, done, auxOf, 1, {})
          invariant Means(plan.m0, model.eqs.AsModel(), betaPow, Discount(plan.beta, ll))
          invariant forall y: nat, l: int :: y < |ys| && minlag <= l <= 0 ==> ((y, l) in done <==> l > ll || (l == ll && y < yi))
        {
          DiscountB(yi, ll, betaPow, md, bound, done, auxOf);
          done := done + {(yi, ll)};
        }
        betaPow := AdvancePower(TIMES, betaPow, ll, md, bound, 1, done, auxOf, {});
        ll := ll - 1;
      }
      PassedB(plan, model.eqs.AsModel(), diffB, minlag, 1, done);
    }

    method DiscountB(yi: nat, ll: int, betaPow: nat, ghost md: Model, ghost bound: int, ghost done: set<(nat, int)>, ghost auxOf: map<(nat, nat, int), string>)
      requires Discounting(md, bound, 1, done, auxOf, 1, {}) && yi < |ys| && minlag <= ll <= 0 && (yi, ll) !in done
      requires Means(plan.m0, model.eqs.AsModel(), betaPow, Discount(plan.beta, ll))
      modifies this`diffB, model.eqs.otree
      ensures Discounting(md, bound, 1, done + {(yi, ll)}, auxOf, 1, {})
      ensures Means(plan.m0, model.eqs.AsModel(), betaPow, Discount(plan.beta, ll))
    {
      hide Means, IsModel, DynareModel.Valid, GrowsTo, PassB, PassF, AllNamed, AuxMeans, SpecB, SpecF;
      ghost var m, cells := model.eqs.AsModel(), diffB;
      CellOfB(yi, ll, done, 1);
      DiscountSpecB(yi, ll);
      var r := MultiplyCell(betaPow, diffB[(yi, ll)], Discount(plan.beta, ll), SpecB(plan, 1, yi, ll));
      DiscountingGrows(md, bound, 1, done, auxOf, 1, {}, m);
      model.Parts();
      MeansGrows(plan.m0, m, model.eqs.AsModel(), betaPow, Discount(plan.beta, ll));
      SelfGrows(model.eqs.AsModel());
      StepB(plan, model.eqs.AsModel(), cells, minlag, 1, done, model.eqs.AsModel(), yi, ll, r);
      diffB := diffB[(yi, ll) := r];
    }

    lemma DiscountSpecB(yi: nat, ll: int)
      requires Planned() && yi < |ys|
      ensures SpecB(plan, 2, yi, ll) == Product(Discount(plan.beta, ll), SpecB(plan, 1, yi, ll))
    {
    }

    method BetaMultiplyF(ghost md: Model, ghost bound: int, ghost auxOf: map<(nat, nat, int), string>)
      requires Discounting(md, bound, 2, {}, auxOf, 1, {}) && minlag <= 0 <= maxlead
      modifies this`diffF, model.eqs.otree
      ensures Discounting(md, bound, 2, {}, auxOf, 2, {})
    {
      hide Means, IsModel, DynareModel.Valid, GrowsTo, PassB, PassF, AllNamed, AuxMeans, SpecB, SpecF;
      ghost var done := DiscountLeads(md, bound, auxOf);
      done := DiscountLags(md, bound, auxOf, done);
      PassedF(plan, model.eqs.AsModel(), diffF, auxOf, minlag, maxlead, 1, done);
    }

    /** Discounts the cells from lead zero on. */
    method DiscountLeads(ghost md: Model, ghost bound: int, ghost auxOf: map<(nat, nat, int), string>) returns (ghost done: set<(nat, nat, int)>)
      requires Discounting(md, bound, 2, {}, auxOf, 1, {}) && minlag <= 0 <= maxlead
      modifies this`diffF, model.eqs.otree
      ensures Discounting(md, bound, 2, {}, auxOf, 1, done)
      ensures forall y: nat, f: nat, l: int :: y < |ys| && f < |fset| && minlag <= l <= maxlead ==> ((y, f, l) in done <==> 0 <= l)
    {
      hide Means, IsModel, DynareModel.Valid, GrowsTo, PassB, PassF, AllNamed, AuxMeans, SpecB, SpecF, LeafGrowth, NoNewLeaves, Discounting;
      done := {};
      var betaPow := ONE;
      PowerOne(md, bound, 2, {}, auxOf, {});
      var ll := 0;
      while ll <= maxlead
        invariant 0 <= ll <= maxlead + 1 && Planned() && model.Valid() && Discounting(md, bound, 2, {}, auxOf, 1, done)
        invariant Means(plan.m0, model.eqs.AsModel(), betaPow, Discount(plan.beta, ll))
        invariant forall y: nat, f: nat, l: int :: y < |ys| && f < |fset| && minlag <= l <= maxlead ==> ((y, f, l) in done <==> 0 <= l < ll)
        decreases maxlead + 1 - ll
      {
        done := DiscountLevel(ll, betaPow, md, bound, done, auxOf);
        betaPow := AdvancePower(DIVIDE, betaPow, ll, md, bound, 2, {}, auxOf, done);
        PowerOne(md, bound, 2, {}, auxOf, done);
        ll := ll + 1;
      }
    }

    /** Discounts the cells from lead zero back. */
    method DiscountLags(ghost md: Model, ghost bound: int, ghost auxOf: map<(nat, nat, int), string>, ghost leads: set<(nat, nat, int)>)
      returns (ghost done: set<(nat, nat, int)>)
      requires Discounting(md, bound, 2, {}, auxOf, 1, leads) && minlag <= 0 <= maxlead
      requires forall y: nat, f: nat, l: int :: y < |ys| && f < |fset| && minlag <= l <= maxlead ==> ((y, f, l) in leads <==> 0 <= l)
      modifies this`diffF, model.eqs.otree
      ensures Discounting(md, bound, 2, {}, auxOf, 1, done)
      ensures forall y: nat, f: nat, l: int :: y < |ys| && f < |fset| && minlag <= l <= maxlead ==> (y, f, l) in done
    {
      hide Means, IsModel, DynareModel.Valid, GrowsTo, PassB, PassF, AllNamed, AuxMeans, SpecB, SpecF, LeafGrowth, NoNewLeaves, Discounting;
      done := leads;
      var betaPow := ONE;
      PowerOne(md, bound, 2, {}, auxOf, done);
      var ll := 0;
      while ll >= minlag
        invariant minlag - 1 <= ll <= 0 && Planned() && model.Valid() && Discounting(md, bound, 2, {}, auxOf, 1, done)
        invariant Means(plan.m0, model.eqs.AsModel(), betaPow, Discount(plan.beta, ll))
        invariant forall y: nat, f: nat, l: int :: y < |ys| && f < |fset| && minlag <= l <= maxlead ==> ((y, f, l) in done <==> l >= 0 || l > ll)
        decreases ll + 1 - minlag
      {
        done := DiscountLevel(ll, betaPow, md, bound, done, auxOf);
        betaPow := AdvancePower(TIMES, betaPow, ll, md, bound, 2, {}, auxOf, done);
        PowerOne(md, bound, 2, {}, auxOf, done);
        ll := ll - 1;
      }
    }

    /** Discounts all cells of one lead; those of lead zero for the second time in the second loop. */
    method DiscountLevel(ll: int, betaPow: nat, ghost md: Model, ghost bound: int, ghost done: set<(nat, nat, int)>, ghost auxOf: map<(nat, nat, int), string>)
      returns (ghost more: set<(nat, nat, int)>)
      requires Discounting(md, bound, 2, {}, auxOf, 1, done) && minlag <= ll <= maxlead
      requires Means(plan.m0, model.eqs.AsModel(), betaPow, Discount(plan.beta, ll))
      requires forall y: nat, f: nat :: y < |ys| && f < |fset| ==> ((y, f, ll) in done ==> ll == 0)
      modifies this`diffF, model.eqs.otree
      ensures Discounting(md, bound, 2, {}, auxOf, 1, more) && Means(plan.m0, model.eqs.AsModel(), betaPow, Discount(plan.beta, ll))
      ensures forall y: nat, f: nat, l: int :: y < |ys| && f < |fset| && minlag <= l <= maxlead ==> ((y, f, l) in more <==> (y, f, l) in done || l == ll)
    {
      hide Means, IsModel, DynareModel.Valid, GrowsTo, PassB, PassF, AllNamed, AuxMeans, SpecB, SpecF;
      more := done;
      for yi := 0 to |ys|
        invariant Discounting(md, bound, 2, {}, auxOf, 1, more) && Means(plan.m0, model.eqs.AsModel(), betaPow, Discount(plan.beta, ll))
        invariant forall y: nat, f: nat, l: int :: y < |ys| && f < |fset| && minlag <= l <= maxlead ==> ((y, f, l) in more <==> (y, f, l) in done || (l == ll && y < yi))
      {
        for fi := 0 to |fset|
          invariant Discounting(md, bound, 2, {}, auxOf, 1, more) && Means(plan.m0, model.eqs.AsModel(), betaPow, Discount(plan.beta, ll))
          invariant forall y: nat, f: nat, l: int :: y < |ys| && f < |fset| && minlag <= l <= maxlead ==>
            ((y, f, l) in more <==> (y, f, l) in done || (l == ll && (y < yi || (y == yi && f < fi))))
        {
          DiscountF(yi, fi, ll, betaPow, md, bound, more, auxOf);
          more := more + {(yi, fi, ll)};
        }
      }
    }

    method DiscountF(yi: nat, fi: nat, ll: int, betaPow: nat, ghost md: Model, ghost bound: int, ghost done: set<(nat, nat, int)>, ghost auxOf: map<(nat, nat, int), string>)
      requires Discounting(md, bound, 2, {}, auxOf, 1, done) && yi < |ys| && fi < |fset| && minlag <= ll <= maxlead && ((yi, fi, ll) in done ==> ll == 0)
      requires Means(plan.m0, model.eqs.AsModel(), betaPow, Discount(plan.beta, ll))
      modifies this`diffF, model.eqs.otree
      ensures Discounting(md, bound, 2, {}, auxOf, 1, done + {(yi, fi, ll)})
      ensures Means(plan.m0, model.eqs.AsModel(), betaPow, Discount(plan.beta, ll))
    {
      hide Means, IsModel, DynareModel.Valid, GrowsTo, PassB, PassF, AllNamed, AuxMeans, SpecB, SpecF;
      ghost var m, cells := model.eqs.AsModel(), diffF;
      ghost var stage := StageF(1, done, yi, fi, ll);
      CellIsF(auxOf, 1, done, yi, fi, ll);
      DiscountSpecF(auxOf, yi, fi, ll);
      var r := MultiplyCell(betaPow, diffF[(yi, fi, ll)], Discount(plan.beta, ll), SpecF(plan, auxOf, stage, yi, fi, ll));
      DiscountingGrows(md, bound, 2, {}, auxOf, 1, done, m);
      model.Parts();
      MeansGrows(plan.m0, m, model.eqs.AsModel(), betaPow, Discount(plan.beta, ll));
      if (yi, fi, ll) in done {
        assert Discount(plan.beta, 0) == Value(1.0);
        OnceMore(plan.m0, model.eqs.AsModel(), r, SpecF(plan, auxOf, 1, yi, fi, ll));
      }
      SelfGrows(model.eqs.AsModel());
      StepF(plan, model.eqs.AsModel(), cells, auxOf, minlag, maxlead, 1, done, model.eqs.AsModel(), yi, fi, ll, r);
      diffF := diffF[(yi, fi, ll) := r];
    }

    lemma DiscountSpecF(auxOf: map<(nat, nat, int), string>, yi: nat, fi: nat, ll: int)
      requires Planned() && yi < |ys| && fi < |fset|
      ensures SpecF(plan, auxOf, 2, yi, fi, ll) == Product(Discount(plan.beta, ll), SpecF(plan, auxOf, 1, yi, fi, ll))
      ensures SpecF(plan, auxOf, 3, yi, fi, ll) == Product(Variable(MultName(fset[fi]), -ll), SpecF(plan, auxOf, 2, yi, fi, ll))
    {
    }

    lemma CellIsF(auxOf: map<(nat, nat, int), string>, k: nat, done: set<(nat, nat, int)>, yi: nat, fi: nat, ll: int)
      requires Planned() && PassF(plan, model.eqs.AsModel(), diffF, auxOf, minlag, maxlead, k, done)
      requires yi < |ys| && fi < |fset| && minlag <= ll <= maxlead
      ensures (yi, fi, ll) in diffF && Means(plan.m0, model.eqs.AsModel(), diffF[(yi, fi, ll)], SpecF(plan, auxOf, StageF(k, done, yi, fi, ll), yi, fi, ll))
    {
      hide SpecF, Means;
      assert MeansF(plan, model.eqs.AsModel(), diffF, auxOf, StageF(k, done, yi, fi, ll), yi, fi, ll);
    }

    lemma ZeroBelow()
      requires model.Valid()
      ensures ZERO < |model.eqs.otree.terms|
    {
      hide Consed, Reduced, Spans, Incident;
    }

    // ----- the multipliers -----

    /** The multipliers of the first n constraints are variables. */
    ghost predicate Registered(n: nat)
      requires n <= |fset|
      reads model.eqs.atoms
    {
      forall f: nat :: f < n ==> MultName(fset[f]) in model.eqs.atoms.endovars && MultName(fset[f]) in model.eqs.atoms.varnames
    }

    /** Declares the multipliers and multiplies them onto the cells; fails exactly when a constraint occurs twice
        or the name of a multiplier is taken. */
    method LagrangeMultF(ghost md: Model, ghost bound: int, ghost auxOf: map<(nat, nat, int), string>) returns (ok: bool)
      requires Discounting(md, bound, 2, {}, auxOf, 2, {}) && minlag <= 0 <= maxlead && -minlag <= bound <= 0x2000_0000 && maxlead <= bound
      modifies this`diffF, model.eqs.otree, model.eqs.atoms
      ensures model.Valid() && model.eqs.formulas == old(model.eqs.formulas)
      ensures ok <==> MultsFree(fset, old(model.eqs.atoms.varnames))
      ensures ok ==> Discounting(md, bound, 2, {}, auxOf, 3, {}) && Registered(|fset|)
      ensures ok ==> forall n: string :: n in model.eqs.atoms.varnames ==> n in old(model.eqs.atoms.varnames) || IsMultName(n)
    {
      hide Means, IsModel, DynareModel.Valid, GrowsTo, PassB, PassF, AllNamed, AuxMeans, SpecB, SpecF, MultName, MultsFree, IsMultName;
      ok := RegisterMults(md, bound, auxOf);
      if ok {
        MultiplyAll(md, bound, auxOf);
      }
    }

    /** Declares the multipliers. */
    method RegisterMults(ghost md: Model, ghost bound: int, ghost auxOf: map<(nat, nat, int), string>) returns (ok: bool)
      requires Discounting(md, bound, 2, {}, auxOf, 2, {})
      modifies model.eqs.atoms`varnames, model.eqs.atoms`endovars
      ensures model.Valid() && (ok <==> MultsFree(fset, old(model.eqs.atoms.varnames)))
      ensures ok ==> Discounting(md, bound, 2, {}, auxOf, 2, {}) && Registered(|fset|)
      ensures ok ==> forall n: string :: n in model.eqs.atoms.varnames ==> n in old(model.eqs.atoms.varnames) || IsMultName(n)
    {
      hide Means, IsModel, DynareModel.Valid, GrowsTo, PassB, PassF, AllNamed, AuxMeans, SpecB, SpecF, MultName, MultsNamed, MultsFree;
      ghost var names0 := model.eqs.atoms.varnames;
      ok := true;
      NoMults(names0);
      for fi := 0 to |fset|
        invariant ok && Discounting(md, bound, 2, {}, auxOf, 2, {})
        invariant Registered(fi) && MultsNamed(fset, names0, model.eqs.atoms.varnames, fi)
      {
        MultsNamedMore(fset, names0, model.eqs.atoms.varnames, fi);
        ok := model.Declare(MultName(fset[fi]));
        if !ok {
          return;
        }
      }
      AllMults(names0);
    }

    /** Multiplies the multipliers onto the cells. */
    method MultiplyAll(ghost md: Model, ghost bound: int, ghost auxOf: map<(nat, nat, int), string>)
      requires Discounting(md, bound, 2, {}, auxOf, 2, {}) && minlag <= 0 <= maxlead && -minlag <= bound <= 0x2000_0000 && maxlead <= bound
      requires Registered(|fset|)
      modifies this`diffF, model.eqs.otree, model.eqs.atoms`vars, model.eqs.atoms`indices, model.eqs.atoms`nv, model.eqs.atoms`minlag, model.eqs.atoms`maxlead
      ensures model.Valid() && model.eqs.formulas == old(model.eqs.formulas) && Discounting(md, bound, 2, {}, auxOf, 3, {})
    {
      hide Means, IsModel, DynareModel.Valid, GrowsTo, PassB, PassF, AllNamed, AuxMeans, SpecB, SpecF, MultName;
      ghost var done: set<(nat, nat, int)> := {};
      for yi := 0 to |ys|
        invariant Discounting(md, bound, 2, {}, auxOf, 2, done) && model.eqs.formulas == old(model.eqs.formulas)
        invariant Registered(|fset|)
        invariant forall y: nat, f: nat, l: int :: y < |ys| && f < |fset| && minlag <= l <= maxlead ==> ((y, f, l) in done <==> y < yi)
      {
        for fi := 0 to |fset|
          invariant Discounting(md, bound, 2, {}, auxOf, 2, done) && model.eqs.formulas == old(model.eqs.formulas)
          invariant Registered(|fset|)
          invariant forall y: nat, f: nat, l: int :: y < |ys| && f < |fset| && minlag <= l <= maxlead ==>
            ((y, f, l) in done <==> y < yi || (y == yi && f < fi))
        {
          done := MultiplyRow(yi, fi, md, bound, auxOf, done);
        }
      }
      PassedF(plan, model.eqs.AsModel(), diffF, auxOf, minlag, maxlead, 2, done);
    }

    lemma NoMults(names: set<string>)
      ensures MultsNamed(fset, names, names, 0)
    {
    }

    lemma AllMults(names0: set<string>)
      requires MultsNamed(fset, names0, model.eqs.atoms.varnames, |fset|)
      ensures MultsFree(fset, names0) && forall n: string :: n in model.eqs.atoms.varnames ==> n in names0 || IsMultName(n)
    {
      hide MultName;
      assert fset[..|fset|] == fset;
    }

    /** Multiplies the cells of one variable and one constraint. */
    method MultiplyRow(yi: nat, fi: nat, ghost md: Model, ghost bound: int, ghost auxOf: map<(nat, nat, int), string>, ghost done: set<(nat, nat, int)>)
      returns (ghost more: set<(nat, nat, int)>)
      requires Discounting(md, bound, 2, {}, auxOf, 2, done) && minlag <= 0 <= maxlead && -minlag <= bound <= 0x2000_0000 && maxlead <= bound
      requires yi < |ys| && fi < |fset| && Registered(|fset|) && forall l: int :: minlag <= l <= maxlead ==> (yi, fi, l) !in done
      modifies this`diffF, model.eqs.otree, model.eqs.atoms`vars, model.eqs.atoms`indices, model.eqs.atoms`nv, model.eqs.atoms`minlag, model.eqs.atoms`maxlead
      ensures Discounting(md, bound, 2, {}, auxOf, 2, more) && model.eqs.formulas == old(model.eqs.formulas)
      ensures forall y: nat, f: nat, l: int :: y < |ys| && f < |fset| && minlag <= l <= maxlead ==>
        ((y, f, l) in more <==> (y, f, l) in done || (y == yi && f == fi))
    {
      hide Means, IsModel, DynareModel.Valid, GrowsTo, PassB, PassF, AllNamed, AuxMeans, SpecB, SpecF, MultName;
      more := done;
      var ll := minlag;
      while ll <= maxlead
        invariant minlag <= ll <= maxlead + 1 && Discounting(md, bound, 2, {}, auxOf, 2, more) && model.eqs.formulas == old(model.eqs.formulas)
        invariant forall y: nat, f: nat, l: int :: y < |ys| && f < |fset| && minlag <= l <= maxlead ==>
          ((y, f, l) in more <==> (y, f, l) in done || (y == yi && f == fi && l < ll))
        decreases maxlead + 1 - ll
      {
        MultiplyOneF(yi, fi, ll, md, bound, more, auxOf);
        more := more + {(yi, fi, ll)};
        ll := ll + 1;
      }
    }

    method MultiplyOneF(yi: nat, fi: nat, ll: int, ghost md: Model, ghost bound: int, ghost done: set<(nat, nat, int)>, ghost auxOf: map<(nat, nat, int), string>)
      requires Discounting(md, bound, 2, {}, auxOf, 2, done) && yi < |ys| && fi < |fset| && minlag <= ll <= maxlead && (yi, fi, ll) !in done
      requires -minlag <= bound <= 0x2000_0000 && maxlead <= bound && Registered(|fset|)
      modifies this`diffF, model.eqs.otree, model.eqs.atoms`vars, model.eqs.atoms`indices, model.eqs.atoms`nv, model.eqs.atoms`minlag, model.eqs.atoms`maxlead
      ensures Discounting(md, bound, 2, {}, auxOf, 2, done + {(yi, fi, ll)}) && model.eqs.formulas == old(model.eqs.formulas)
    {
      hide Means, IsModel, DynareModel.Valid, GrowsTo, PassB, PassF, AllNamed, AuxMeans, SpecB, SpecF, MultName;
      ghost var m, cells := model.eqs.AsModel(), diffF;
      model.Parts();
      CellIsF(auxOf, 2, done, yi, fi, ll);
      DiscountSpecF(auxOf, yi, fi, ll);
      var r := MultipliedCell(MultName(fset[fi]), diffF[(yi, fi, ll)], ll, SpecF(plan, auxOf, 2, yi, fi, ll));
      LeafGrowthMore(m, model.eqs.AsModel(), Abs(-ll), 2 * bound);
      DiscountingGrows(md, bound, 2, {}, auxOf, 2, done, m);
      model.Parts();
      StepF(plan, m, cells, auxOf, minlag, maxlead, 2, done, model.eqs.AsModel(), yi, fi, ll, r);
      diffF := diffF[(yi, fi, ll) := r];
    }

    /** Multiplies the shifted multiplier onto a cell unless the cell is zero. */
    method MultipliedCell(name: string, t: nat, ll: int, ghost g: Spec) returns (r: nat)
      requires model.Valid() && IsModel(plan.m0) && Means(plan.m0, model.eqs.AsModel(), t, g) && InRange(-ll)
      requires name in model.eqs.atoms.endovars && name in model.eqs.atoms.varnames
      modifies model.eqs.otree, model.eqs.atoms`vars, model.eqs.atoms`indices, model.eqs.atoms`nv, model.eqs.atoms`minlag, model.eqs.atoms`maxlead
      ensures model.Valid() && model.eqs.formulas == old(model.eqs.formulas) && GrowsTo(old(model.eqs.AsModel()), model.eqs.AsModel())
      ensures Means(plan.m0, model.eqs.AsModel(), r, Product(Variable(name, -ll), g)) && LeafGrowth(old(model.eqs.AsModel()), model.eqs.AsModel(), Abs(-ll))
    {
      hide Means, IsModel, DynareModel.Valid, GrowsTo, LeafGrowth;
      ghost var m := model.eqs.AsModel();
      if t == ZERO {
        SelfGrows(m);
        ZeroStays(plan.m0, m, g, 0, Variable(name, -ll));
        return t;
      }
      var leaf := model.LeafOf(Atom(name, -ll));
      ghost var m1 := model.eqs.AsModel();
      model.Parts();
      NoParameter(name);
      MeansLeaf(plan.m0, m1, leaf.value);
      MeansGrows(plan.m0, m, m1, t, g);
      r := MultiplyCell(leaf.value, t, Variable(name, -ll), g);
      GrowsToTrans(m, m1, model.eqs.AsModel());
      NoLeafGrowth(m1, model.eqs.AsModel(), Abs(-ll));
      LeafGrowthTrans(m, m1, model.eqs.AsModel(), Abs(-ll));
    }

    lemma NoParameter(name: string)
      requires model.Valid() && name in model.eqs.atoms.endovars
      ensures name !in model.eqs.AsModel().params
    {
      hide OperationTree.Shape, Spans, IsModel;
    }

    // ----- the equations -----

    /** All passes are done. */
    ghost predicate Ready(md: Model, bound: int, auxOf: map<(nat, nat, int), string>)
      reads this, model.eqs, model.eqs.otree, model.eqs.atoms
    {
      Planned() && model.Valid() && Discounting(md, bound, 2, {}, auxOf, 3, {}) && minlag <= 0 <= maxlead
    }

    /** Adds the first-order conditions as equations. */
    method AddConditions(ghost md: Model, ghost bound: int, ghost auxOf: map<(nat, nat, int), string>)
      requires Ready(md, bound, auxOf)
      modifies model.eqs`formulas, model.eqs.otree
      ensures Ready(md, bound, auxOf) && |model.eqs.formulas| == |old(model.eqs.formulas)| + |ys|
      ensures GrowsTo(old(model.eqs.AsModel()), model.eqs.AsModel())
      ensures Conditions(plan, model.eqs.AsModel(), auxOf, minlag, maxlead, |old(model.eqs.formulas)|, |ys|)
    {
      hide Means, IsModel, DynareModel.Valid, GrowsTo, Discounting, Condition;
      ghost var m0, start := model.eqs.AsModel(), |model.eqs.formulas|;
      SelfGrows(m0);
      for yi := 0 to |ys|
        invariant Ready(md, bound, auxOf) && |model.eqs.formulas| == start + yi
        invariant GrowsTo(m0, model.eqs.AsModel()) && Conditions(plan, model.eqs.AsModel(), auxOf, minlag, maxlead, start, yi)
      {
        ghost var m := model.eqs.AsModel();
        FormEquation(yi, md, bound, auxOf, start);
        GrowsToTrans(m0, m, model.eqs.AsModel());
      }
    }

    method FormEquation(yi: nat, ghost md: Model, ghost bound: int, ghost auxOf: map<(nat, nat, int), string>, ghost start: nat)
      requires Ready(md, bound, auxOf) && yi < |ys| && |model.eqs.formulas| == start + yi
      requires Conditions(plan, model.eqs.AsModel(), auxOf, minlag, maxlead, start, yi)
      modifies model.eqs`formulas, model.eqs.otree
      ensures Ready(md, bound, auxOf) && |model.eqs.formulas| == start + yi + 1
      ensures GrowsTo(old(model.eqs.AsModel()), model.eqs.AsModel())
      ensures Conditions(plan, model.eqs.AsModel(), auxOf, minlag, maxlead, start, yi + 1)
    {
      hide Means, IsModel, DynareModel.Valid, GrowsTo, Discounting, Conditions;
      ghost var m := model.eqs.AsModel();
      var eq := SumCells(yi, md, bound, auxOf);
      ghost var m1 := model.eqs.AsModel();
      model.Parts();
      ConditionsGrow(plan, m, auxOf, minlag, maxlead, start, yi, m1);
      StoreEquation(eq, md, bound, auxOf);
      ConditionAdded(plan, m1, auxOf, minlag, maxlead, start, yi, model.eqs.AsModel(), eq);
      GrowsToTrans(m, m1, model.eqs.AsModel());
    }

    method StoreEquation(eq: nat, ghost md: Model, ghost bound: int, ghost auxOf: map<(nat, nat, int), string>)
      requires Ready(md, bound, auxOf) && eq < |model.eqs.otree.terms|
      modifies model.eqs`formulas
      ensures Ready(md, bound, auxOf) && IsModel(model.eqs.AsModel())
      ensures model.eqs.formulas == old(model.eqs.formulas) + [eq] && GrowsTo(old(model.eqs.AsModel()), model.eqs.AsModel())
    {
      hide Means, PassB, PassF, AuxMeans, AllNamed, OperationTree.Shape, IsModel, Matched, Spans;
      ghost var m := model.eqs.AsModel();
      model.eqs.AddFormula(eq);
      DiscountingGrows(md, bound, 2, {}, auxOf, 3, {}, m);
    }

    /** Adds up the cells of a variable. */
    method SumCells(yi: nat, ghost md: Model, ghost bound: int, ghost auxOf: map<(nat, nat, int), string>) returns (eq: nat)
      requires Ready(md, bound, auxOf) && yi < |ys|
      modifies model.eqs.otree
      ensures Ready(md, bound, auxOf) && GrowsTo(old(model.eqs.AsModel()), model.eqs.AsModel()) && model.eqs.formulas == old(model.eqs.formulas)
      ensures Means(plan.m0, model.eqs.AsModel(), eq, Condition(plan, auxOf, yi, minlag, maxlead, |fset|)) && eq < |model.eqs.otree.terms|
    {
      hide Means, IsModel, DynareModel.Valid, GrowsTo, PassB, PassF, AllNamed, AuxMeans, SpecB, SpecF, TotalF;
      ghost var m := model.eqs.AsModel();
      SelfGrows(m);
      model.Parts();
      MeansConstants(plan.m0, m);
      eq := ZERO;
      var ll := minlag;
      while ll <= 0
        invariant minlag <= ll <= 1 && Ready(md, bound, auxOf) && GrowsTo(m, model.eqs.AsModel())
        invariant Means(plan.m0, model.eqs.AsModel(), eq, TotalB(plan, yi, minlag, ll - minlag))
        decreases 1 - ll
      {
        ghost var m1 := model.eqs.AsModel();
        CellOfB(yi, ll, {}, 2);
        eq := PlusCell(eq, diffB[(yi, ll)], TotalB(plan, yi, minlag, ll - minlag), SpecB(plan, 2, yi, ll), md, bound, auxOf);
        GrowsToTrans(m, m1, model.eqs.AsModel());
        ll := ll + 1;
      }
      for fi := 0 to |fset|
        invariant Ready(md, bound, auxOf) && GrowsTo(m, model.eqs.AsModel())
        invariant Means(plan.m0, model.eqs.AsModel(), eq, Condition(plan, auxOf, yi, minlag, maxlead, fi))
      {
        ghost var m1 := model.eqs.AsModel();
        eq := SumRow(yi, fi, eq, Condition(plan, auxOf, yi, minlag, maxlead, fi), md, bound, auxOf);
        GrowsToTrans(m, m1, model.eqs.AsModel());
      }
      MeansBound(model.eqs.AsModel(), eq, Condition(plan, auxOf, yi, minlag, maxlead, |fset|));
    }

    method SumRow(yi: nat, fi: nat, eq0: nat, ghost g: Spec, ghost md: Model, ghost bound: int, ghost auxOf: map<(nat, nat, int), string>) returns (eq: nat)
      requires Ready(md, bound, auxOf) && yi < |ys| && fi < |fset| && Means(plan.m0, model.eqs.AsModel(), eq0, g)
      modifies model.eqs.otree
      ensures Ready(md, bound, auxOf) && GrowsTo(old(model.eqs.AsModel()), model.eqs.AsModel())
      ensures Means(plan.m0, model.eqs.AsModel(), eq, TotalF(plan, auxOf, yi, fi, minlag, 1 + maxlead - minlag, g))
    {
      hide Means, IsModel, DynareModel.Valid, GrowsTo, PassB, PassF, AllNamed, AuxMeans, SpecB, SpecF;
      ghost var m := model.eqs.AsModel();
      SelfGrows(m);
      eq := eq0;
      var ll := minlag;
      while ll <= maxlead
        invariant minlag <= ll <= maxlead + 1 && Ready(md, bound, auxOf) && GrowsTo(m, model.eqs.AsModel())
        invariant Means(plan.m0, model.eqs.AsModel(), eq, TotalF(plan, auxOf, yi, fi, minlag, ll - minlag, g))
        decreases maxlead + 1 - ll
      {
        ghost var m1 := model.eqs.AsModel();
        CellIsF(auxOf, 3, {}, yi, fi, ll);
        eq := PlusCell(eq, diffF[(yi, fi, ll)], TotalF(plan, auxOf, yi, fi, minlag, ll - minlag, g), SpecF(plan, auxOf, 3, yi, fi, ll), md, bound, auxOf);
        GrowsToTrans(m, m1, model.eqs.AsModel());
        ll := ll + 1;
      }
    }

    /** Adds a cell to the sum. */
    method PlusCell(eq: nat, t: nat, ghost g: Spec, ghost h: Spec, ghost md: Model, ghost bound: int, ghost auxOf: map<(nat, nat, int), string>) returns (r: nat)
      requires Ready(md, bound, auxOf) && Means(plan.m0, model.eqs.AsModel(), eq, g) && Means(plan.m0, model.eqs.AsModel(), t, h)
      modifies model.eqs.otree
      ensures Ready(md, bound, auxOf) && GrowsTo(old(model.eqs.AsModel()), model.eqs.AsModel())
      ensures Means(plan.m0, model.eqs.AsModel(), r, Plus(g, h))
    {
      hide Means, IsModel, DynareModel.Valid, GrowsTo, PassB, PassF, AllNamed, AuxMeans;
      ghost var m := model.eqs.AsModel();
      MeansBound(m, eq, g);
      MeansBound(m, t, h);
      model.Parts();
      r := Combine(PLUS, eq, t);
      model.Parts();
      MeansGrows(plan.m0, m, model.eqs.AsModel(), eq, g);
      MeansGrows(plan.m0, m, model.eqs.AsModel(), t, h);
      MeansPlus(plan.m0, model.eqs.AsModel(), eq, t, r, g, h);
      DiscountingGrows(md, bound, 2, {}, auxOf, 3, {}, m);
    }

    ghost predicate AuxDone(first: nat, names: set<string>)
      reads this, model.eqs, model.eqs.otree, model.eqs.atoms
    {
      forall n: string :: n in auxMap && n in names ==> Defined(model.eqs.AsModel(), auxMap, first, n)
    }

    /** Adds the equations of the auxiliary variables. */
    method AddAuxEquations(ghost md: Model, ghost bound: int, ghost auxOf: map<(nat, nat, int), string>, ghost start: nat)
      requires Ready(md, bound, auxOf) && Conditions(plan, model.eqs.AsModel(), auxOf, minlag, maxlead, start, |ys|)
      modifies model.eqs`formulas, model.eqs.otree
      ensures Ready(md, bound, auxOf) && Conditions(plan, model.eqs.AsModel(), auxOf, minlag, maxlead, start, |ys|)
      ensures |model.eqs.formulas| == |old(model.eqs.formulas)| + |auxMap| && GrowsTo(old(model.eqs.AsModel()), model.eqs.AsModel())
      ensures AuxDone(|old(model.eqs.formulas)|, auxMap.Keys) && OnlyAux(model.eqs.AsModel(), auxMap, |old(model.eqs.formulas)|)
    {
      hide Means, IsModel, DynareModel.Valid, GrowsTo, Discounting, Conditions, Defined, OnlyAux, DefinesAux;
      ghost var m0, first := model.eqs.AsModel(), |model.eqs.formulas|;
      SelfGrows(m0);
      NoAuxEquations(first);
      var rest := auxMap.Keys;
      while rest != {}
        invariant rest <= auxMap.Keys && Ready(md, bound, auxOf) && |model.eqs.formulas| == first + |auxMap| - |rest|
        invariant Conditions(plan, model.eqs.AsModel(), auxOf, minlag, maxlead, start, |ys|) && GrowsTo(m0, model.eqs.AsModel())
        invariant AuxDone(first, auxMap.Keys - rest) && OnlyAux(model.eqs.AsModel(), auxMap, first)
        decreases |rest|
      {
        var name: string :| name in rest;
        ghost var m := model.eqs.AsModel();
        AddAuxEquation(name, md, bound, auxOf, first);
        OnlyAuxMore(m, auxMap, first, name, model.eqs.AsModel());
        model.Parts();
        ConditionsGrow(plan, m, auxOf, minlag, maxlead, start, |ys|, model.eqs.AsModel());
        GrowsToTrans(m0, m, model.eqs.AsModel());
        OneMoreDefined(m, first, auxMap.Keys - rest, name);
        rest := rest - {name};
      }
    }

    lemma NoAuxEquations(first: nat)
      requires first == |model.eqs.formulas|
      ensures OnlyAux(model.eqs.AsModel(), auxMap, first)
    {
    }

    lemma OneMoreDefined(m: Model, first: nat, names: set<string>, name: string)
      requires GrowsTo(m, model.eqs.AsModel()) && Defined(model.eqs.AsModel(), auxMap, first, name)
      requires forall n: string :: n in auxMap && n in names ==> Defined(m, auxMap, first, n)
      ensures AuxDone(first, names + {name})
    {
      hide GrowsTo, Defined;
      forall n: string | n in auxMap && n in names
        ensures Defined(model.eqs.AsModel(), auxMap, first, n)
      {
        DefinedStays(m, auxMap, first, n, model.eqs.AsModel());
      }
    }

    method AddAuxEquation(name: string, ghost md: Model, ghost bound: int, ghost auxOf: map<(nat, nat, int), string>, ghost first: nat)
      requires Ready(md, bound, auxOf) && name in auxMap && first <= |model.eqs.formulas|
      modifies model.eqs`formulas, model.eqs.otree
      ensures Ready(md, bound, auxOf) && |model.eqs.formulas| == |old(model.eqs.formulas)| + 1
      ensures GrowsTo(old(model.eqs.AsModel()), model.eqs.AsModel()) && Defined(model.eqs.AsModel(), auxMap, first, name)
      ensures DefinesAux(model.eqs.AsModel(), auxMap, name, |old(model.eqs.formulas)|)
    {
      hide Means, IsModel, GrowsTo, PassB, PassF, AllNamed, StoredAs, AuxMeans, DynareModel.Valid;
      ghost var m := model.eqs.AsModel();
      AuxKnown(name, md, bound, auxOf);
      var t := model.eqs.atoms.Index(Atom(name, 0));
      StoreDifference(t.value, auxMap[name]);
      DiscountingGrows(md, bound, 2, {}, auxOf, 3, {}, m);
      ghost var i := |m.formulas|;
      assert IsDef(model.eqs.AsModel(), Def(name, t.value, auxMap[name]), model.eqs.AsModel().formulas[i]);
      assert DefinesAux(model.eqs.AsModel(), auxMap, name, i);
    }

    /** The leaf of an auxiliary variable and its term. */
    lemma AuxKnown(name: string, md: Model, bound: int, auxOf: map<(nat, nat, int), string>)
      requires Ready(md, bound, auxOf) && name in auxMap
      ensures Atom(name, 0) in model.eqs.atoms.vars && auxMap[name] < |model.eqs.AsModel().terms|
      ensures model.eqs.atoms.vars[Atom(name, 0)] in model.eqs.AsModel().atoms && model.eqs.atoms.vars[Atom(name, 0)] < |model.eqs.AsModel().terms|
      ensures model.eqs.AsModel().atoms[model.eqs.atoms.vars[Atom(name, 0)]] == Atom(name, 0) && name !in model.eqs.AsModel().params
    {
      hide Means, PassB, PassF, AllNamed, OperationTree.Shape, Spans;
      assert AuxTerm(plan, model.eqs.AsModel(), auxMap, name);
      var l: nat :| l in model.eqs.AsModel().atoms && model.eqs.AsModel().atoms[l] == Atom(name, 0);
      assert IsLeaf(model.eqs.AsModel().terms, l);
      SameParams(md, model.eqs.AsModel());
    }

    /** Adds an equation that two terms are equal. */
    method StoreDifference(t1: nat, t2: nat)
      requires model.Valid() && t1 < |model.eqs.otree.terms| && t2 < |model.eqs.otree.terms|
      modifies model.eqs`formulas, model.eqs.otree
      ensures model.Valid() && GrowsTo(old(model.eqs.AsModel()), model.eqs.AsModel()) && model.eqs.AsModel().atoms == old(model.eqs.AsModel()).atoms
      ensures |model.eqs.formulas| == |old(model.eqs.formulas)| + 1
      ensures StoredAs(model.eqs.otree.terms, MINUS, t1, t2, model.eqs.formulas[|old(model.eqs.formulas)|])
      ensures |old(model.eqs.otree.terms)| <= |model.eqs.otree.terms| && NoNewLeaves(old(model.eqs.otree.terms), model.eqs.otree.terms)
    {
      hide OperationTree.Shape, Spans, IsModel, Matched, StoredAs, Typed;
      var f := model.eqs.AddDifference(t1, t2);
    }

    // ----- all passes -----

    /** A parsed model with an objective and a discount factor: all leaves are named and the leads are small. */
    ghost predicate Plannable(bound: int)
      reads this, model.eqs, model.eqs.otree, model.eqs.atoms
    {
      && model.Valid() && model.eqs.otree.CacheOk() && AllNamed(model.eqs.AsModel(), bound) && bound <= 0x2000_0000
      && plan == Plan(model.eqs.AsModel(), model.eqs.atoms.vars, model.eqs.atoms.varnames, ys, fset, tb, plan.beta)
      && minlag == model.eqs.atoms.minlag && maxlead == model.eqs.atoms.maxlead
      && tb < |model.eqs.otree.terms| && (forall fi :: 0 <= fi < |fset| ==> fset[fi] < |model.eqs.formulas|)
      && tbeta in model.eqs.atoms.indices && model.eqs.atoms.indices[tbeta] == Atom(plan.beta, 0) && plan.beta in model.eqs.atoms.params
      && diffB == map[] && diffF == map[] && auxMap == map[]
    }

    lemma LeadsInBound(bound: int)
      requires Plannable(bound)
      ensures minlag <= 0 <= maxlead && -bound <= minlag && maxlead <= bound && Deriving()
    {
      hide OperationTree.CacheOk, Consed, Reduced, Incident;
      var atoms := model.eqs.atoms;
      assert Atom(plan.beta, 0) in atoms.vars;
      var lo: Atom :| lo in atoms.vars && lo.ll == minlag;
      var hi: Atom :| hi in atoms.vars && hi.ll == maxlead;
      assert atoms.vars[lo] in model.eqs.AsModel().atoms && atoms.vars[hi] in model.eqs.AsModel().atoms;
    }

    /** After the derivatives, the leaves are the same. */
    lemma DerivedNames(bound: int)
      requires Deriving() && AllNamed(plan.m0, bound)
      ensures AllNamed(model.eqs.AsModel(), bound) && GrowsTo(plan.m0, model.eqs.AsModel()) && GrowsTo(model.eqs.AsModel(), model.eqs.AsModel())
    {
      hide OperationTree.CacheOk, Consed, Reduced, Incident, Spans, Matched;
    }

    /** The leaf of the discount factor. */
    lemma BetaLeaf(m: Model)
      requires model.Valid() && IsModel(plan.m0) && GrowsTo(m, model.eqs.AsModel())
      requires tbeta in m.atoms && m.atoms[tbeta] == Atom(plan.beta, 0) && plan.beta in m.params
      ensures BetaKnown()
    {
      hide Means, IsModel, OperationTree.Shape, Spans;
      model.Parts();
      MeansLeaf(plan.m0, model.eqs.AsModel(), tbeta);
    }

    /** The passes that fill and transform the matrices, up to the discounting of the constraints; fails only when a name is taken. */
    method FillMatrices(ghost bound: int) returns (ok: bool, ghost md: Model, ghost auxOf: map<(nat, nat, int), string>)
      requires Plannable(bound)
      modifies this, model.eqs.otree, model.eqs.atoms
      ensures model.Valid() && model.eqs.formulas == old(model.eqs.formulas) && GrowsTo(plan.m0, md)
      ensures minlag <= 0 <= maxlead && -minlag <= bound && maxlead <= bound
      ensures Distinct(fset) && AuxFree(old(model.eqs.atoms.varnames)) ==> ok
      ensures ok ==> Discounting(md, bound, 2, {}, auxOf, 2, {})
      ensures ok ==> forall n: string :: n in model.eqs.atoms.varnames ==> n in old(model.eqs.atoms.varnames) || IsLagName(n)
    {
      hide Means, IsModel, DynareModel.Valid, GrowsTo, PassB, PassF, AllNamed, AuxMeans, Deriving, AuxFree, IsLagName;
      LeadsInBound(bound);
      BetaBefore(bound);
      ghost var m0 := plan.m0;
      AddDerivativesOfB();
      AddDerivativesOfF();
      md := model.eqs.AsModel();
      DerivedNames(bound);
      AfterDerivatives(md, bound);
      BetaAfter(m0, md);
      ShiftDerivativesOfB(md, bound);
      ok, auxOf := ShiftDerivativesOfF(md, bound);
      if !ok {
        return;
      }
      BetaLeaf(md);
      BetaMultiplyB(md, bound, auxOf);
      BetaMultiplyF(md, bound, auxOf);
    }

    lemma BetaBefore(bound: int)
      requires Plannable(bound)
      ensures tbeta in plan.m0.atoms && plan.m0.atoms[tbeta] == Atom(plan.beta, 0) && plan.beta in plan.m0.params
      ensures plan.m0.formulas == model.eqs.formulas && bound <= 0x2000_0000
      ensures AllNamed(plan.m0, bound) && auxMap == map[] && bound >= 0
      ensures NamesIn(plan.m0, plan.names) && plan.names == model.eqs.atoms.varnames
    {
      hide OperationTree.CacheOk, Consed, Reduced, Incident, Spans;
      assert tbeta in model.eqs.AsModel().atoms;
    }

    lemma BetaAfter(m0: Model, md: Model)
      requires GrowsTo(m0, md) && tbeta in m0.atoms && m0.atoms[tbeta] == Atom(plan.beta, 0) && plan.beta in m0.params
      ensures tbeta in md.atoms && md.atoms[tbeta] == Atom(plan.beta, 0) && plan.beta in md.params
    {
    }

    lemma AfterDerivatives(md: Model, bound: int)
      requires Deriving() && md == model.eqs.AsModel() && AllNamed(md, bound) && GrowsTo(md, md) && bound >= 0
      requires NamesIn(plan.m0, plan.names) && plan.names == model.eqs.atoms.varnames
      requires PassB(plan, md, diffB, minlag, 0, {}) && PassF(plan, md, diffF, map[], minlag, maxlead, 0, {})
      ensures Holding(md, bound, 0, {}, map[], 0, {}) && model.eqs.formulas == plan.m0.formulas && model.Valid()
    {
      hide PassB, PassF, GrowsTo, DynareModel.Valid, OperationTree.CacheOk, IsModel, WellFormed;
    }

    /** All passes of the planner: adds an equation for every variable, its first-order condition, and the
        equations of the auxiliary variables; fails only when one of the new names is taken. */
    method Build(ghost bound: int) returns (ok: bool)
      requires Plannable(bound)
      modifies this, model.eqs`formulas, model.eqs.otree, model.eqs.atoms
      ensures model.Valid()
      ensures AuxFree(old(model.eqs.atoms.varnames)) && MultsFree(fset, old(model.eqs.atoms.varnames)) ==> ok
      ensures ok ==> GrowsTo(old(model.eqs.AsModel()), model.eqs.AsModel())
      ensures ok ==> |model.eqs.formulas| == |old(model.eqs.formulas)| + |ys| + |auxMap|
      ensures ok ==> forall yi: nat :: yi < |ys| ==> FirstOrder(plan, model.eqs.AsModel(), minlag, maxlead, yi)
      ensures ok ==> AuxDetermined(plan, model.eqs.AsModel(), auxMap, |old(model.eqs.formulas)| + |ys|) && AuxesStand(plan, model.eqs.AsModel(), auxMap)
      ensures ok ==> AllNamed(model.eqs.AsModel(), 2 * bound) && old(model.eqs.atoms.varnames) <= model.eqs.atoms.varnames
      ensures ok ==> forall f: nat :: f < |fset| ==> MultName(fset[f]) in model.eqs.atoms.varnames
      ensures Constrained(plan) && AtomsAreLeaves(plan)
      ensures ok ==> forall n: string :: n in model.eqs.atoms.varnames ==> n in old(model.eqs.atoms.varnames) || IsLagName(n) || IsMultName(n)
    {
      hide Means, IsModel, DynareModel.Valid, GrowsTo, PassB, PassF, AllNamed, AuxMeans, Conditions, Defined, FirstOrder, AuxFree, IsLagName, AuxDetermined, IsMultName, Constrained, AtomsAreLeaves, AuxesStand;
      ghost var names0 := model.eqs.atoms.varnames;
      PlanIs(bound);
      ghost var md, auxOf;
      ok, md, auxOf := FillMatrices(bound);
      if !ok {
        return;
      }
      MultsStayFree(fset, names0, model.eqs.atoms.varnames);
      ok := LagrangeMultF(md, bound, auxOf);
      if !ok {
        return;
      }
      FormEquations(md, bound, auxOf);
    }

    lemma PlanIs(bound: int)
      requires Plannable(bound)
      ensures plan.m0 == model.eqs.AsModel() && plan.names == model.eqs.atoms.varnames && Constrained(plan) && AtomsAreLeaves(plan)
    {
      hide OperationTree.CacheOk, Consed, Reduced, Incident, Spans;
    }

    /** What the added equations say. */
    lemma AllConditions(m: Model, auxOf: map<(nat, nat, int), string>)
      requires plan.ys == ys && Finished(plan, m, auxMap, auxOf, minlag, maxlead)
      ensures forall yi: nat :: yi < |ys| ==> FirstOrder(plan, m, minlag, maxlead, yi)
      ensures AuxDetermined(plan, m, auxMap, |plan.m0.formulas| + |ys|) && AuxesStand(plan, m, auxMap)
    {
      hide AuxStands, HasLeaf, TermNames, IsModel, Conditions, OnlyAux, Defined, FirstOrder, AuxDetermined;
      AuxesDetermined(plan, m, auxMap, auxOf, minlag, maxlead);
      assert forall n: string :: n in auxMap ==> AuxTerm(plan, m, auxMap, n);
      forall yi: nat | yi < |ys|
        ensures FirstOrder(plan, m, minlag, maxlead, yi)
      {
        AllFirstOrder(plan, m, auxMap, auxOf, minlag, maxlead, yi);
      }
    }

    method FormEquations(ghost md: Model, ghost bound: int, ghost auxOf: map<(nat, nat, int), string>)
      requires Ready(md, bound, auxOf) && model.eqs.formulas == plan.m0.formulas && GrowsTo(plan.m0, md)
      modifies model.eqs`formulas, model.eqs.otree
      ensures model.Valid() && GrowsTo(plan.m0, model.eqs.AsModel())
      ensures |model.eqs.formulas| == |old(model.eqs.formulas)| + |ys| + |auxMap|
      ensures forall yi: nat :: yi < |ys| ==> FirstOrder(plan, model.eqs.AsModel(), minlag, maxlead, yi)
      ensures AuxDetermined(plan, model.eqs.AsModel(), auxMap, |old(model.eqs.formulas)| + |ys|) && AuxesStand(plan, model.eqs.AsModel(), auxMap)
      ensures AllNamed(model.eqs.AsModel(), 2 * bound) && plan.names <= model.eqs.atoms.varnames
    {
      hide Means, IsModel, DynareModel.Valid, GrowsTo, PassB, PassF, AllNamed, AuxMeans, Conditions, Defined, FirstOrder, OnlyAux, AuxDetermined, AuxesStand;
      AddConditions(md, bound, auxOf);
      AddAuxEquations(md, bound, auxOf, |plan.m0.formulas|);
      model.Parts();
      GrowsToTrans(plan.m0, md, model.eqs.AsModel());
      AllConditions(model.eqs.AsModel(), auxOf);
    }
  }
}
