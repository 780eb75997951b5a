/** From a parsed model to one with lags and leads of at most one. */
module FinalJobs {
  import opened Wrappers
  import opened Jets
  import opened OperationTrees
  import opened DynamicAtomsModule
  import opened ModelMeaning
  import opened FormulaParserModule
  import opened LagElimination
  import opened ModelSteps
  import opened AtomSubstitutionsModule
  import opened SubstituteAllModule
  import opened DynareModels
  import opened ForwSubstBuilders
  import opened AuxNames
  import opened PlannerPasses
  import opened PlannerConditions
  import opened PlannedSolutions
  import opened PlannerBuilders

  /** Eliminating lags keeps the solutions, and determines the new names. */
  lemma EliminationConservative(before: Model, names: set<string>, after: Model, subst: map<string, Atom>, links: seq<Link>)
    requires Eliminates(before, names, after, subst, links)
    ensures Conservative(before, names, after, names + subst.Keys)
  {
    hide Solves, IsModel, LeavesKept, Linked, Fresh;
    forall F: Funs | Lawful(F)
      ensures Restricts(F, before, after) && Extends(F, before, names, after) && Determines(F, names, after, names + subst.Keys)
    {
      EliminationFor(F, before, names, after, subst, links);
    }
  }

  lemma EliminationFor(F: Funs, before: Model, names: set<string>, after: Model, subst: map<string, Atom>, links: seq<Link>)
    requires Eliminates(before, names, after, subst, links) && Lawful(F) && IsModel(before) && IsModel(after)
    ensures Restricts(F, before, after) && Extends(F, before, names, after) && Determines(F, names, after, names + subst.Keys)
  {
    hide Solves, IsModel, Eliminates;
    forall x: Path | Solves(F, after, x)
      ensures Solves(F, before, x)
    {
      EliminationPreserves(F, before, names, after, subst, links, x);
    }
    forall x: Path | Solves(F, before, x)
      ensures ExtendsTo(F, names, after, x)
    {
      ExtendsUniquely(F, before, names, after, subst, links, x);
    }
    forall x: Path, y: Path | Solves(F, after, x) && Solves(F, after, y) && AgreeOn(names, x, y)
      ensures AgreeOn(names + subst.Keys, x, y)
    {
      ExtendsUniquely(F, before, names, after, subst, links, x);
      assert AgreeOn(names, x, x);
    }
  }

  /** Forward substitution and then the elimination of lags: the solutions are those of the model before, each
      extended in exactly one way; endogenous variables lag and lead by at most one, exogenous ones not at all.
      Fails only when the name of an auxiliary variable of the forward substitution is taken. */
  method EliminateLeadsAndLags(model: DynareModel, ghost bound: int) returns (ok: bool, ghost names: set<string>)
    requires model.Valid() && Tractable(model.eqs.AsModel(), bound) && 1 <= bound <= 0x2000_0000
    modifies model.eqs`formulas, model.eqs.otree, model.eqs.atoms
    ensures AllFree(old(model.eqs.atoms.varnames)) ==> ok
    ensures ok ==> model.eqs.Valid() && Conservative(old(model.eqs.AsModel()), old(model.eqs.atoms.varnames), model.eqs.AsModel(), names)
    ensures ok ==> Normalized(model, names)
  {
    hide Conservative, DynareModel.Valid, FormulaParser.Valid, Tractable, LeadsUpTo, IsModel, Eliminates, NamesKnown, AtomSubstitutions.Valid, AllFree;
    names := {};
    ghost var m0, names0 := model.eqs.AsModel(), model.eqs.atoms.varnames;
    var fbuilder := new ForwSubstBuilder(model);
    ok := fbuilder.Build(bound);
    if !ok {
      return;
    }
    model.Parts();
    var asub := new AtomSubstitutions(model.eqs);
    ghost var m1, names1 := model.eqs.AsModel(), model.eqs.atoms.varnames;
    SubstituteAllLagsAndExo1Leads(model.eqs, asub);
    EliminationConservative(m1, names1, model.eqs.AsModel(), asub.new2old, asub.links);
    KnownAtoms(model.eqs, asub);
    names := names1 + asub.new2old.Keys;
    ConservativeTrans(m0, names0, m1, names1, model.eqs.AsModel(), names);
  }

  /** All atoms have these names, endogenous variables lag and lead by at most one, and exogenous ones not at all. */
  ghost predicate Normalized(model: DynareModel, names: set<string>)
    reads model.eqs, model.eqs.atoms
  {
    && (forall a: Atom :: a in model.eqs.atoms.vars ==> a.name in names)
    && (forall a: Atom :: a in model.eqs.atoms.vars && a.name in model.eqs.atoms.endovars ==> -1 <= a.ll <= 1)
    && (forall a: Atom :: a in model.eqs.atoms.vars && a.name in model.eqs.atoms.exovars ==> a.ll == 0)
  }

  /** The planner's problem of a model: an objective over all equations, with a discount parameter. */
  ghost predicate Planning(model: DynareModel, tb: nat, tbeta: nat, bound: int)
    reads model.eqs, model.eqs.otree, model.eqs.atoms
  {
    && model.Valid() && model.eqs.otree.CacheOk() && AllNamed(model.eqs.AsModel(), bound) && 1 <= bound <= 0x1000_0000
    && tb < |model.eqs.otree.terms| && tbeta in model.eqs.atoms.indices
    && model.eqs.atoms.indices[tbeta].ll == 0 && model.eqs.atoms.indices[tbeta].name in model.eqs.atoms.params
  }

  function AllBelow(n: nat): (s: seq<nat>)
    ensures |s| == n && forall i :: 0 <= i < n ==> s[i] == i
  {
    if n == 0 then [] else AllBelow(n - 1) + [n - 1]
  }

  /** The planner's problem of a model: the parsed model, all endogenous variables, all equations, the objective and
      the discount parameter. */
  ghost function PlanOf(model: DynareModel, tb: nat, tbeta: nat): Plan
    requires tbeta in model.eqs.atoms.indices
    reads model.eqs, model.eqs.otree, model.eqs.atoms
  {
    Plan(model.eqs.AsModel(), model.eqs.atoms.vars, model.eqs.atoms.varnames, model.eqs.atoms.endovars, AllBelow(|model.eqs.formulas|),
         tb, model.eqs.atoms.indices[tbeta].name)
  }

  /** No name that the planner may add is declared. */
  ghost predicate PlannerFree(names: set<string>) {
    AuxFree(names) && forall f: nat :: MultName(f) !in names
  }

  /** Adds the planner's first-order conditions for all endogenous variables and all equations; fails only when a name
      is taken. */
  method RunPlanner(model: DynareModel, tb: nat, tbeta: nat, ghost bound: int)
    returns (ok: bool, ghost auxMap: map<string, nat>)
    requires Planning(model, tb, tbeta, bound)
    modifies model.eqs`formulas, model.eqs.otree, model.eqs.atoms
    ensures PlannerFree(old(model.eqs.atoms.varnames)) ==> ok
    ensures model.Valid()
    ensures ok ==> Planned(old(PlanOf(model, tb, tbeta)), model.eqs.AsModel(), model.eqs.atoms.varnames, auxMap,
                           old(model.eqs.atoms.minlag), old(model.eqs.atoms.maxlead))
    ensures ok ==> Tractable(model.eqs.AsModel(), 2 * bound)
    ensures AllFree(old(model.eqs.atoms.varnames)) && ok ==> AllFree(model.eqs.atoms.varnames)
  {
    hide Constrained, AtomsAreLeaves, AllNamed, FirstOrder, AuxDetermined, AuxFree, MultName, DynareModel.Valid, GrowsTo, IsLagName, IsMultName, AllFree, Tractable, IsModel, AuxesStand, NamesIn, PlanKnown;
    ghost var names0 := model.eqs.atoms.varnames;
    PlanningParts(model, tb, tbeta, bound);
    PlanStartsKnown(model, tb, tbeta, bound);
    var eset: seq<nat> := [];
    for i := 0 to |model.eqs.formulas|
      invariant eset == AllBelow(i)
    {
      eset := eset + [i];
    }
    var pbuilder := new PlannerBuilder(model, model.eqs.atoms.endovars, eset, tb, tbeta);
    StartsPlannable(model, pbuilder, tb, tbeta, bound);
    ok := pbuilder.Build(bound);
    auxMap := pbuilder.auxMap;
    if ok {
      model.Parts();
      AllNamedTractable(model.eqs.AsModel(), 2 * bound);
      StillAllFree(names0, model.eqs.atoms.varnames);
    }
  }

  lemma PlanningParts(model: DynareModel, tb: nat, tbeta: nat, bound: int)
    requires Planning(model, tb, tbeta, bound)
    ensures model.Valid() && tbeta in model.eqs.atoms.indices
  {
  }

  lemma PlanStartsKnown(model: DynareModel, tb: nat, tbeta: nat, bound: int)
    requires Planning(model, tb, tbeta, bound)
    ensures PlanKnown(PlanOf(model, tb, tbeta), model.eqs.atoms.minlag, model.eqs.atoms.maxlead)
  {
    hide OperationTree.CacheOk, Consed, Reduced, Incident;
    model.Parts();
    assert model.eqs.atoms.indices[tbeta] in model.eqs.atoms.vars;
  }

  lemma StartsPlannable(model: DynareModel, pb: PlannerBuilder, tb: nat, tbeta: nat, bound: int)
    requires Planning(model, tb, tbeta, bound)
    requires pb.model == model && pb.ys == model.eqs.atoms.endovars && pb.fset == AllBelow(|model.eqs.formulas|) && pb.tb == tb && pb.tbeta == tbeta
    requires pb.maxlead == model.eqs.atoms.maxlead && pb.minlag == model.eqs.atoms.minlag
    requires pb.diffB == map[] && pb.diffF == map[] && pb.auxMap == map[]
    requires pb.plan == Plan(model.eqs.AsModel(), model.eqs.atoms.vars, model.eqs.atoms.varnames, pb.ys, pb.fset, tb, model.eqs.atoms.indices[tbeta].name)
    ensures pb.Plannable(bound)
    ensures PlannerFree(model.eqs.atoms.varnames) ==> AuxFree(model.eqs.atoms.varnames) && MultsFree(pb.fset, model.eqs.atoms.varnames)
  {
    hide AllNamed, DynareModel.Valid, OperationTree.CacheOk, AuxFree, MultName;
  }

  /** Over named leaves with small leads every equation can be substituted. */
  lemma AllNamedTractable(m: Model, bound: int)
    requires AllNamed(m, bound)
    ensures Tractable(m, bound)
  {
    forall i: nat | i < |m.formulas|
      ensures Closed(m, m.formulas[i]) && SmallLeads(m, m.formulas[i], bound)
    {
      LeavesAreLeaves(m.terms, m.formulas[i]);
    }
  }

  /** The planner takes no name from the forward substitution. */
  lemma StillAllFree(names0: set<string>, names: set<string>)
    requires forall n: string :: n in names ==> n in names0 || IsLagName(n) || IsMultName(n)
    ensures AllFree(names0) ==> AllFree(names)
  {
    hide AuxLeadName, AuxLagName, MultName;
    if AllFree(names0) {
      forall i: nat, j: nat, k: nat
        ensures AuxLeadName(i, j, k) !in names
      {
        LeadNameApart(i, j, k);
      }
    }
  }

  lemma LeadNameApart(i: nat, j: nat, k: nat)
    ensures !IsLagName(AuxLeadName(i, j, k)) && !IsMultName(AuxLeadName(i, j, k))
  {
    hide AuxLeadName, AuxLagName, MultName;
    forall y: nat, f: nat, l: nat
      ensures AuxLeadName(i, j, k) != AuxLagName(y, f, l)
    {
      KindsApart(i, j, k, y, f, l, 0);
    }
    forall g: nat
      ensures AuxLeadName(i, j, k) != MultName(g)
    {
      KindsApart(i, j, k, 0, 0, 0, g);
    }
  }

  /** The final job on a parsed model. With an objective and a discount factor the planner adds its conditions, each
      with the value of the first-order condition. Then the leads and lags are eliminated: the solutions are those of
      the model with the conditions, each extended in exactly one way. Fails only when a name is taken. */
  method FinalJob(model: DynareModel, objective: Option<nat>, discount: Option<nat>, ghost bound: int)
    returns (ok: bool, ghost planned: Model, ghost auxMap: map<string, nat>, ghost names1: set<string>, ghost names: set<string>)
    requires model.Valid()
    requires if objective.Some? && discount.Some? then Planning(model, objective.value, discount.value, bound)
      else Tractable(model.eqs.AsModel(), bound) && 1 <= bound <= 0x2000_0000
    modifies model.eqs`formulas, model.eqs.otree, model.eqs.atoms
    ensures AllFree(old(model.eqs.atoms.varnames)) && (objective.Some? && discount.Some? ==> PlannerFree(old(model.eqs.atoms.varnames))) ==> ok
    ensures ok && objective.Some? && discount.Some? ==>
      Planned(old(PlanOf(model, objective.value, discount.value)), planned, names1, auxMap, old(model.eqs.atoms.minlag), old(model.eqs.atoms.maxlead))
    ensures ok && objective.Some? && discount.Some? ==>
      SolvesExactly(old(PlanOf(model, objective.value, discount.value)), old(model.eqs.atoms.minlag), old(model.eqs.atoms.maxlead),
                    model.eqs.AsModel(), names1 - auxMap.Keys)
    ensures !(objective.Some? && discount.Some?) ==> planned == old(model.eqs.AsModel()) && names1 == old(model.eqs.atoms.varnames)
    ensures ok ==> model.eqs.Valid() && Conservative(planned, names1, model.eqs.AsModel(), names) && Normalized(model, names)
  {
    hide Conservative, DynareModel.Valid, FormulaParser.Valid, Tractable, AllFree, PlannerFree, Planned, Normalized, Planning, PlanOf, SolvesExactly;
    planned, auxMap, names1, names := model.eqs.AsModel(), map[], model.eqs.atoms.varnames, {};
    ghost var leads := bound;
    ghost var c, minlag, maxlead := None, model.eqs.atoms.minlag, model.eqs.atoms.maxlead;
    if objective.Some? && discount.Some? {
      BoundOf(model, objective.value, discount.value, bound);
      PlanningParts(model, objective.value, discount.value, bound);
      c := Some(PlanOf(model, objective.value, discount.value));
      ok, auxMap := RunPlanner(model, objective.value, discount.value, bound);
      if !ok {
        return;
      }
      planned, names1, leads := model.eqs.AsModel(), model.eqs.atoms.varnames, 2 * bound;
    }
    ok, names := EliminateLeadsAndLags(model, leads);
    if ok && c.Some? {
      AllExactly(c.value, planned, names1, auxMap, minlag, maxlead, model.eqs.AsModel(), names);
    }
  }

  lemma BoundOf(model: DynareModel, tb: nat, tbeta: nat, bound: int)
    requires Planning(model, tb, tbeta, bound)
    ensures 1 <= 2 * bound <= 0x2000_0000
  {
  }
}
