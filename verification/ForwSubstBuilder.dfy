/** Replacing terms with leads greater than one by chains of auxiliary variables. */
module ForwSubstBuilders {
  import opened Wrappers
  import opened Jets
  import opened Terms
  import opened OperationTrees
  import opened DynamicAtomsModule
  import opened ModelMeaning
  import opened FormulaParserModule
  import opened ModelSteps
  import opened ForwardMeaning
  import opened ShiftedTerms
  import opened DynareModels
  import opened ForwardSteps
  import opened AuxNames
  import opened AtomSubstitutionsModule

  class ForwSubstBuilder {
    const model: DynareModel
    var auxMap: map<string, nat>
    var numAffectedEquations: nat
    var numSubstTerms: nat
    var numAuxVariables: nat

    constructor (m: DynareModel)
      ensures model == m && auxMap == map[]
    {
      model, auxMap := m, map[];
      numAffectedEquations, numSubstTerms, numAuxVariables := 0, 0, 0;
    }

    /** Declares an auxiliary variable and adds the equation that it equals a term; fails exactly
        when the name is taken. */
    method AddAux(name: string, def: nat) returns (ok: bool, ghost d: Def)
      requires model.Valid() && def < |model.eqs.otree.terms|
      modifies model.eqs`formulas, model.eqs.otree, model.eqs.atoms
      ensures model.Valid() && ok == (name !in old(model.eqs.atoms.varnames))
      ensures ok ==> GrowsTo(old(model.eqs.AsModel()), model.eqs.AsModel()) && d.name == name && d.def == def
      ensures ok ==> |model.eqs.formulas| == |old(model.eqs.formulas)| + 1 && model.eqs.formulas[..|old(model.eqs.formulas)|] == old(model.eqs.formulas)
      ensures ok ==> IsDef(model.eqs.AsModel(), d, model.eqs.formulas[|old(model.eqs.formulas)|])
      ensures ok ==> model.eqs.atoms.varnames == old(model.eqs.atoms.varnames) + {name} && name in model.eqs.atoms.endovars
      ensures ok ==> forall b: Atom :: b in model.eqs.atoms.vars && b.name == name ==> b.ll == 0
    {
      hide OperationTree.Shape, Spans, IsModel, GrowsTo, Matched, StoredAs, Typed, ConstantsApart;
      ghost var m0 := model.eqs.AsModel();
      d := Def(name, 0, def);
      ok := model.Declare(name);
      if !ok {
        return;
      }
      d := DefineAux(name, def);
    }

    /** The leaf at time zero and the equation of a declared auxiliary variable. */
    method DefineAux(name: string, def: nat) returns (ghost d: Def)
      requires model.Valid() && def < |model.eqs.otree.terms| && name in model.eqs.atoms.endovars && name in model.eqs.atoms.varnames
      modifies model.eqs`formulas, model.eqs.otree, model.eqs.atoms`vars, model.eqs.atoms`indices, model.eqs.atoms`nv, model.eqs.atoms`minlag, model.eqs.atoms`maxlead
      ensures model.Valid() && GrowsTo(old(model.eqs.AsModel()), model.eqs.AsModel()) && d.name == name && d.def == def
      ensures |model.eqs.formulas| == |old(model.eqs.formulas)| + 1 && model.eqs.formulas[..|old(model.eqs.formulas)|] == old(model.eqs.formulas)
      ensures IsDef(model.eqs.AsModel(), d, model.eqs.formulas[|old(model.eqs.formulas)|])
      ensures forall b: Atom :: b in model.eqs.atoms.vars ==> b in old(model.eqs.atoms.vars) || b == Atom(name, 0)
    {
      hide FormulaParser.Valid, IsModel, GrowsTo, StoredAs, ConstantsApart, Typed, DynamicAtoms.Declared;
      ghost var m0 := model.eqs.AsModel();
      var leaf := model.LeafOf(Atom(name, 0));
      ghost var m1 := model.eqs.AsModel();
      ValidParts(leaf.value, m0, m1, name);
      var f := model.eqs.AddDifference(leaf.value, def);
      ghost var m2 := model.eqs.AsModel();
      d := Def(name, leaf.value, def);
      MoreFormula(m0, m1, m2, f);
      SameConstants(m1, m2);
    }

    /** The term with its leads shifted back so that the greatest one is one. */
    method ShiftBack(t: nat, mlead: int, ghost bound: int) returns (lagt: nat)
      requires model.Valid() && t < |model.eqs.otree.terms| && mlead > 1
      requires SmallLeads(model.eqs.AsModel(), t, bound) && mlead <= bound <= 0x2000_0000 && LeadsUpTo(model.eqs.AsModel(), t, mlead)
      modifies model.eqs.otree, model.eqs.atoms`vars, model.eqs.atoms`indices, model.eqs.atoms`nv, model.eqs.atoms`minlag, model.eqs.atoms`maxlead
      ensures model.Valid() && model.eqs.formulas == old(model.eqs.formulas)
      ensures InChain(old(model.eqs.AsModel()), model.eqs.atoms.varnames, model.eqs.AsModel(), model.eqs.atoms.varnames, t, lagt, mlead, [])
    {
      hide *;
      ghost var m0, names := model.eqs.AsModel(), model.eqs.atoms.varnames;
      model.Parts();
      ghost var m1, sourcemap, subst;
      lagt, m1, sourcemap, subst := model.ShiftTerm(t, 1 - mlead, bound);
      model.Parts();
      ShiftStartsChain(m0, m1, model.eqs.AsModel(), sourcemap, model.eqs.otree.opmap, Leaves(m0.terms, t), subst, t, lagt, mlead, names);
    }

    /** The state of the model while the chain for one term is built: the last variable has no atom but its own. */
    ghost predicate Building(m0: Model, names0: set<string>, t: nat, lagt: nat, mlead: int, defs: seq<Def>)
      reads model.eqs, model.eqs.otree, model.eqs.atoms
    {
      && model.Valid() && InChain(m0, names0, model.eqs.AsModel(), model.eqs.atoms.varnames, t, lagt, mlead, defs)
      && (|defs| > 0 ==> LastFree(defs[|defs| - 1].name))
    }

    ghost predicate LastFree(name: string)
      reads model.eqs.atoms
    {
      name in model.eqs.atoms.endovars && name in model.eqs.atoms.varnames && forall b: Atom :: b in model.eqs.atoms.vars && b.name == name ==> b.ll == 0
    }

    /** Adds one more auxiliary variable to the chain. */
    method ExtendChain(name: string, def: nat, ghost m0: Model, ghost names0: set<string>, ghost t: nat, ghost lagt: nat, ghost mlead: int,
                       ghost defs: seq<Def>) returns (ok: bool, ghost more: seq<Def>)
      requires model.Valid() && InChain(m0, names0, model.eqs.AsModel(), model.eqs.atoms.varnames, t, lagt, mlead, defs)
      requires def < |model.eqs.otree.terms|
      requires if |defs| == 0 then def == lagt else def in model.eqs.AsModel().atoms && model.eqs.AsModel().atoms[def] == Atom(defs[|defs| - 1].name, 1)
      modifies model.eqs`formulas, model.eqs.otree, model.eqs.atoms
      ensures model.Valid() && (ok <==> name !in old(model.eqs.atoms.varnames))
      ensures ok ==> model.eqs.atoms.varnames == old(model.eqs.atoms.varnames) + {name}
      ensures ok ==> Building(m0, names0, t, lagt, mlead, more) && |more| == |defs| + 1 && more[|defs|].name == name && more[..|defs|] == defs
    {
      hide InChain, GrowsTo, IsDef, DynareModel.Valid;
      ghost var m, names := model.eqs.AsModel(), model.eqs.atoms.varnames;
      model.Parts();
      ParamsKnown(m0, names0, t, lagt, mlead, defs);
      ghost var d;
      more := defs;
      ok, d := AddAux(name, def);
      if !ok {
        return;
      }
      more := defs + [d];
      model.Parts();
      LinkStaysPut(m, model.eqs.AsModel(), lagt, defs, d);
      InChainMore(m0, names0, m, names, t, lagt, mlead, defs, model.eqs.AsModel(), d, model.eqs.formulas[|m.formulas|]);
    }

    lemma ParamsKnown(m0: Model, names0: set<string>, t: nat, lagt: nat, mlead: int, defs: seq<Def>)
      requires model.Valid() && InChain(m0, names0, model.eqs.AsModel(), model.eqs.atoms.varnames, t, lagt, mlead, defs)
      ensures m0.params <= model.eqs.atoms.varnames
    {
      hide Consed, Reduced, Spans, Incident;
    }

    /** Builds the chain for a shifted term; fails exactly when a name is taken. */
    method BuildChain(i: nat, j: nat, lagt: nat, mlead: int, ghost m0: Model, ghost names0: set<string>, ghost t: nat)
      returns (ok: bool, ghost defs: seq<Def>)
      requires model.Valid() && mlead > 1 && lagt < |model.eqs.otree.terms|
      requires InChain(m0, names0, model.eqs.AsModel(), model.eqs.atoms.varnames, t, lagt, mlead, [])
      modifies this, model.eqs`formulas, model.eqs.otree, model.eqs.atoms
      ensures model.Valid() && (ok <==> forall k: nat :: 1 <= k < mlead ==> AuxLeadName(i, j, k) !in old(model.eqs.atoms.varnames))
      ensures ok ==> forall n: string :: n in model.eqs.atoms.varnames ==> n in old(model.eqs.atoms.varnames) || IsLeadName(n, i, j)
      ensures ok ==> Building(m0, names0, t, lagt, mlead, defs) && |defs| == mlead - 1 && defs[|defs| - 1].name == AuxLeadName(i, j, mlead - 1)
    {
      hide InChain, GrowsTo, IsDef, DynareModel.Valid, AuxLeadName, IsLeadName;
      ghost var names := model.eqs.atoms.varnames;
      NewLeadName(names, names, i, j, 1);
      ok, defs := ExtendChain(AuxLeadName(i, j, 1), lagt, m0, names0, t, lagt, mlead, []);
      if !ok {
        return;
      }
      numAuxVariables := numAuxVariables + 1;
      auxMap := auxMap[AuxLeadName(i, j, 1) := lagt];
      var ll := 1;
      while ll <= mlead - 2
        invariant 1 <= ll <= mlead - 1 && |defs| == ll && defs[ll - 1].name == AuxLeadName(i, j, ll)
        invariant Building(m0, names0, t, lagt, mlead, defs) && ok
        invariant LeadsNamed(names, model.eqs.atoms.varnames, i, j, ll)
      {
        NewLeadName(names, model.eqs.atoms.varnames, i, j, ll + 1);
        var lead := LastLead(AuxLeadName(i, j, ll), m0, names0, t, lagt, mlead, defs);
        ok, defs := ExtendChain(AuxLeadName(i, j, ll + 1), lead, m0, names0, t, lagt, mlead, defs);
        if !ok {
          return;
        }
        numAuxVariables := numAuxVariables + 1;
        auxMap := auxMap[AuxLeadName(i, j, ll + 1) := lagt];
        ll := ll + 1;
      }
    }

    /** The leaf of the last auxiliary variable one period ahead. */
    method LastLead(name: string, ghost m0: Model, ghost names0: set<string>, ghost t: nat, ghost lagt: nat, ghost mlead: int, ghost defs: seq<Def>)
      returns (lead: nat)
      requires Building(m0, names0, t, lagt, mlead, defs) && |defs| > 0 && defs[|defs| - 1].name == name
      modifies model.eqs.otree, model.eqs.atoms`vars, model.eqs.atoms`indices, model.eqs.atoms`nv, model.eqs.atoms`minlag, model.eqs.atoms`maxlead
      ensures model.Valid() && InChain(m0, names0, model.eqs.AsModel(), model.eqs.atoms.varnames, t, lagt, mlead, defs)
      ensures lead < |model.eqs.otree.terms| && lead in model.eqs.AsModel().atoms && model.eqs.AsModel().atoms[lead] == Atom(name, 1)
    {
      hide InChain, GrowsTo, IsDef, DynareModel.Valid;
      ghost var m := model.eqs.AsModel();
      model.Parts();
      var leaf := model.LeafOf(Atom(name, 1));
      lead := leaf.value;
      model.Parts();
      assert IsLeaf(model.eqs.AsModel().terms, lead);
      InChainGrown(m0, names0, m, model.eqs.atoms.varnames, t, lagt, mlead, defs, model.eqs.AsModel());
    }

    /** Replaces the term t of equation idx when its variables lead by more than one; fails exactly when
        the name of an auxiliary variable is taken. */
    method SubstituteForTerm(t: nat, i: nat, j: nat, ghost idx: nat, ghost bound: int) returns (ok: bool)
      requires model.Valid() && NUM_CONSTANTS <= t < |model.eqs.otree.terms| && Closed(model.eqs.AsModel(), t)
      requires idx < |model.eqs.formulas| && Reaches(model.eqs.otree.terms, model.eqs.formulas[idx], t)
      requires SmallLeads(model.eqs.AsModel(), t, bound) && bound <= 0x2000_0000
      modifies this, model.eqs`formulas, model.eqs.otree, model.eqs.atoms
      ensures model.Valid() && (ok <==> TermFree(old(model.eqs.AsModel()), t, i, j, old(model.eqs.atoms.varnames)))
      ensures ok ==> forall n: string :: n in model.eqs.atoms.varnames ==> n in old(model.eqs.atoms.varnames) || IsLeadName(n, i, j)
      ensures ok ==> Conservative(old(model.eqs.AsModel()), old(model.eqs.atoms.varnames), model.eqs.AsModel(), model.eqs.atoms.varnames)
      ensures ok ==> Later(old(model.eqs.AsModel()), model.eqs.AsModel(), {t}) && NewLeadsShort(old(model.eqs.AsModel()), model.eqs.AsModel())
      ensures ok ==> t < |model.eqs.otree.terms| && LeadsUpTo(model.eqs.AsModel(), t, 1)
    {
      hide InChain, GrowsTo, IsDef, DynareModel.Valid, Conservative, Later, NewLeadsShort, LeadsUpTo, Reaches, SmallLeads, Closed, IsModel, Chain, FreshChain, TermFree, IsLeadName, Spans;
      ghost var m0, names0 := model.eqs.AsModel(), model.eqs.atoms.varnames;
      model.Parts();
      var mlead, mlag := model.Termspan(t);
      LeadsOfSpan(m0, t, mlag, mlead, bound);
      NamesOfSpan(m0, t, mlag, mlead, i, j, names0);
      if mlead <= 1 {
        NothingReplaced(m0, names0, t, mlead);
        return true;
      }
      numSubstTerms := numSubstTerms + 1;
      var lagt := ShiftBack(t, mlead, bound);
      model.Parts();
      InChainParts(m0, names0, model.eqs.AsModel(), model.eqs.atoms.varnames, t, lagt, mlead, []);
      ghost var defs;
      ok, defs := BuildChain(i, j, lagt, mlead, m0, names0, t);
      if !ok {
        return;
      }
      FinishChain(t, Atom(AuxLeadName(i, j, mlead - 1), 1), lagt, mlead, m0, names0, defs, idx);
    }

    /** Turns the term into the lead of the last auxiliary variable. */
    method FinishChain(t: nat, a: Atom, ghost lagt: nat, ghost mlead: int, ghost m0: Model, ghost names0: set<string>, ghost defs: seq<Def>, ghost idx: nat)
      requires Building(m0, names0, t, lagt, mlead, defs) && |defs| == mlead - 1 > 0 && a == Atom(defs[|defs| - 1].name, 1)
      requires IsModel(m0) && idx < |m0.formulas| && t < |m0.terms| && Reaches(m0.terms, m0.formulas[idx], t) && NUM_CONSTANTS <= t
      requires !LeadsUpTo(m0, t, 1)
      modifies model.eqs.otree, model.eqs.atoms`vars, model.eqs.atoms`indices, model.eqs.atoms`nv, model.eqs.atoms`minlag, model.eqs.atoms`maxlead
      ensures model.Valid() && Conservative(m0, names0, model.eqs.AsModel(), model.eqs.atoms.varnames)
      ensures Later(m0, model.eqs.AsModel(), {t}) && NewLeadsShort(m0, model.eqs.AsModel())
      ensures t < |model.eqs.otree.terms| && LeadsUpTo(model.eqs.AsModel(), t, 1)
    {
      hide InChain, GrowsTo, IsDef, DynareModel.Valid, Conservative, Later, NewLeadsShort, LeadsUpTo, Reaches, IsModel, Chain, FreshChain;
      ghost var m, names := model.eqs.AsModel(), model.eqs.atoms.varnames;
      model.Parts();
      InChainParts(m0, names0, m, names, t, lagt, mlead, defs);
      StillLong(m0, m, t);
      ChainReplaces(m0, names0, m, names, t, lagt, mlead, defs, idx, a);
      NotConstant(t, m);
      model.SubstituteAtomForTerm(a, t);
      BecameShort(m, t, a);
    }

    lemma NotConstant(t: nat, m: Model)
      requires model.Valid() && m == model.eqs.AsModel() && t < |m.terms| && NUM_CONSTANTS <= t && IsModel(m) && !LeadsUpTo(m, t, 1)
      ensures !model.IsConstant(t)
    {
      hide Consed, Reduced, Spans, Incident;
      assert t in m.consts ==> IsLeaf(m.terms, t);
      assert IsLeaf(m.terms, t) ==> Leaves(m.terms, t) == {t};
    }

    /** The state between two terms of equation eq: ms is the model when its terms were selected. */
    ghost predicate InEquation(m0: Model, names0: set<string>, ms: Model, eq: nat, done: set<nat>)
      reads model.eqs, model.eqs.otree, model.eqs.atoms
    {
      && model.Valid() && Conservative(m0, names0, model.eqs.AsModel(), model.eqs.atoms.varnames)
      && AfterTerms(ms, model.eqs.AsModel(), done)
    }

    /** Replaces the chosen terms of equation eq. */
    method SubstituteTerms(eq: nat, nlt: set<nat>, ghost bound: int, ghost m0: Model, ghost names0: set<string>) returns (ok: bool)
      requires model.Valid() && Conservative(m0, names0, model.eqs.AsModel(), model.eqs.atoms.varnames)
      requires eq < |model.eqs.formulas| && bound <= 0x2000_0000 && bound >= 1
      requires Ready(model.eqs.AsModel(), eq, nlt, bound) && NamesBefore(names0, model.eqs.atoms.varnames, eq, 0)
      modifies this, model.eqs`formulas, model.eqs.otree, model.eqs.atoms
      ensures model.Valid() && (AllFree(names0) ==> ok)
      ensures ok ==> NamesBefore(names0, model.eqs.atoms.varnames, eq + 1, 0)
      ensures ok ==> InEquation(m0, names0, old(model.eqs.AsModel()), eq, nlt)
    {
      hide Conservative, Later, NewLeadsShort, LeadsUpTo, Reaches, IsModel, AfterTerms, Ready, DynareModel.Valid, NamesBefore, AllFree, TermFree, IsLeadName;
      ghost var ms := model.eqs.AsModel();
      model.Parts();
      NoTermsYet(ms);
      var rest, j := nlt, 0;
      ok := true;
      while rest != {}
        invariant rest <= nlt && ok && InEquation(m0, names0, ms, eq, nlt - rest) && NamesBefore(names0, model.eqs.atoms.varnames, eq, j)
        decreases |rest|
      {
        var t: nat :| t in rest;
        ghost var m, names := model.eqs.AsModel(), model.eqs.atoms.varnames;
        model.Parts();
        NextTerm(ms, m, eq, nlt, nlt - rest, t, bound);
        StillFree(names0, names, eq, j, m, t);
        ok := SubstituteForTerm(t, eq, j, eq, bound);
        if !ok {
          return;
        }
        model.Parts();
        NamesAfterTerm(names0, names, model.eqs.atoms.varnames, eq, j);
        ConservativeTrans(m0, names0, m, names, model.eqs.AsModel(), model.eqs.atoms.varnames);
        OneTermMore(ms, m, nlt - rest, t, model.eqs.AsModel());
        assert nlt - (rest - {t}) == nlt - rest + {t};
        rest, j := rest - {t}, j + 1;
      }
      assert nlt - rest == nlt;
      NamesAfterEquation(names0, model.eqs.atoms.varnames, eq, j);
    }

    /** The state between two equations. */
    ghost predicate BetweenEquations(m0: Model, names0: set<string>, k: nat)
      reads model.eqs, model.eqs.otree, model.eqs.atoms
    {
      && model.Valid() && Conservative(m0, names0, model.eqs.AsModel(), model.eqs.atoms.varnames)
      && AfterEquations(m0, model.eqs.AsModel(), k) && NamesBefore(names0, model.eqs.atoms.varnames, k, 0)
    }

    /** Replaces the terms of equation k that lead by more than one. */
    method SubstituteEquation(k: nat, ghost bound: int, ghost m0: Model, ghost names0: set<string>) returns (ok: bool)
      requires BetweenEquations(m0, names0, k) && IsModel(m0) && k < |m0.formulas|
      requires Tractable(m0, bound) && 1 <= bound <= 0x2000_0000
      modifies this, model.eqs`formulas, model.eqs.otree, model.eqs.atoms
      ensures model.Valid() && (AllFree(names0) ==> ok) && (ok ==> BetweenEquations(m0, names0, k + 1))
    {
      hide NamesBefore, AllFree, Conservative, Later, NewLeadsShort, LeadsUpTo, Reaches, IsModel, AfterTerms, Ready, DynareModel.Valid, AfterEquations, Tractable, Closed, SmallLeads, Covers;
      ghost var ms := model.eqs.AsModel();
      model.Parts();
      EquationTractable(m0, ms, k, bound);
      var ft := model.eqs.formulas[k];
      var mlead, mlag := model.Termspan(ft);
      LeadsOfSpan(ms, ft, mlag, mlead, bound);
      if mlead <= 1 {
        EquationShort(m0, ms, k, mlead);
        NamesAfterEquation(names0, model.eqs.atoms.varnames, k, 0);
        return true;
      }
      numAffectedEquations := numAffectedEquations + 1;
      var nlt := model.SelectTerms(ft, {});
      SelectedReady(k, nlt, bound);
      ok := SubstituteTerms(k, nlt, bound, m0, names0);
      if ok {
        model.Parts();
        EquationDone(m0, ms, model.eqs.AsModel(), k, nlt);
      }
    }

    lemma SelectedReady(k: nat, nlt: set<nat>, bound: int)
      requires model.Valid() && k < |model.eqs.formulas| && IsModel(model.eqs.AsModel())
      requires Closed(model.eqs.AsModel(), model.eqs.formulas[k]) && SmallLeads(model.eqs.AsModel(), model.eqs.formulas[k], bound)
      requires forall u: nat :: u in nlt <==> model.Found(model.eqs.formulas[k], u)
      ensures Ready(model.eqs.AsModel(), k, nlt, bound)
    {
      hide Consed, Reduced, Spans, Incident, DynareModel.NLSelector, DynareModel.Found, Meets, Reaches;
      var m, ft := model.eqs.AsModel(), model.eqs.formulas[k];
      forall v: nat | v in nlt
        ensures v < |m.terms| && model.Accepts(v)
      {
        model.FoundAccepted(ft, v);
      }
      forall u: nat | u in nlt
        ensures ReadyTerm(m, k, nlt, u, bound)
      {
        model.FoundMeets(ft, u, nlt);
      }
    }

    /** The greatest lead of a name. */
    method LastLeadOf(name: string) returns (mlead: int)
      requires model.Valid()
      ensures forall a: Atom :: a in model.eqs.atoms.vars.Keys && a.name == name ==> a.ll <= mlead
    {
      hide OperationTree.Shape, IsModel, Spans;
      var mlag;
      mlead, mlag := model.eqs.atoms.VarspanOfName(name);
      SpanOfName(model.eqs.atoms, name, mlag, mlead);
    }

    /** Takes the leaves from all leads greater than one of a name. */
    method UnassignName(name: string)
      requires model.Valid() && model.IsVariableName(name)
      modifies model.eqs.atoms`vars, model.eqs.atoms`indices, model.eqs.atoms`nv, model.eqs.atoms`minlag, model.eqs.atoms`maxlead
      ensures model.Valid() && Fewer(old(model.eqs.AsModel()), model.eqs.AsModel())
      ensures forall a: Atom :: a in model.eqs.atoms.vars ==> a in old(model.eqs.atoms.vars) && !(a.name == name && a.ll >= 2)
    {
      hide DynareModel.Valid, FormulaParser.Valid, Fewer;
      ghost var m0 := model.eqs.AsModel();
      FewerSelf(m0);
      var mlead := LastLeadOf(name);
      var ll := 2;
      while ll <= mlead
        invariant ll >= 2 && model.Valid() && model.IsVariableName(name) && Fewer(m0, model.eqs.AsModel())
        invariant forall a: Atom :: a in model.eqs.atoms.vars ==> a in old(model.eqs.atoms.vars) && !(a.name == name && 2 <= a.ll < ll)
        decreases mlead + 1 - ll
      {
        UnassignLead(Atom(name, ll), m0);
        ll := ll + 1;
      }
      LeadsDone(name, ll, mlead, old(model.eqs.atoms.vars));
    }

    lemma LeadsDone(name: string, ll: int, mlead: int, vars: map<Atom, nat>)
      requires ll > mlead && forall a: Atom :: a in vars.Keys && a.name == name ==> a.ll <= mlead
      requires forall a: Atom :: a in model.eqs.atoms.vars ==> a in vars && !(a.name == name && 2 <= a.ll < ll)
      ensures forall a: Atom :: a in model.eqs.atoms.vars ==> a in vars && !(a.name == name && a.ll >= 2)
    {
      forall a: Atom | a in model.eqs.atoms.vars
        ensures !(a.name == name && a.ll >= 2)
      {
        assert a in vars.Keys;
      }
    }

    method UnassignLead(a: Atom, ghost m0: Model)
      requires model.Valid() && model.IsVariableName(a.name) && a.ll >= 2 && Fewer(m0, model.eqs.AsModel())
      modifies model.eqs.atoms`vars, model.eqs.atoms`indices, model.eqs.atoms`nv, model.eqs.atoms`minlag, model.eqs.atoms`maxlead
      ensures model.Valid() && Fewer(m0, model.eqs.AsModel())
      ensures model.eqs.atoms.vars == old(model.eqs.atoms.vars) - {a}
    {
      hide OperationTree.Shape, Spans, IsModel, Matched, Fewer;
      ghost var m := model.eqs.AsModel();
      var t := model.eqs.atoms.Index(a);
      if t.Some? {
        model.NamedOnceMore(a);
        var ok := model.eqs.atoms.UnassignVariable(a, t.value);
        OneAtomFewer(m0, m, t.value, model.eqs.AsModel());
      }
    }

    /** Takes the leaves from all leads greater than one of the names. */
    method UnassignNames(names: seq<string>)
      requires model.Valid() && forall n: string :: n in names ==> model.IsVariableName(n)
      modifies model.eqs.atoms`vars, model.eqs.atoms`indices, model.eqs.atoms`nv, model.eqs.atoms`minlag, model.eqs.atoms`maxlead
      ensures model.Valid() && Fewer(old(model.eqs.AsModel()), model.eqs.AsModel())
      ensures forall a: Atom :: a in model.eqs.atoms.vars ==> a in old(model.eqs.atoms.vars) && !(a.name in names && a.ll >= 2)
    {
      hide DynareModel.Valid, Fewer;
      ghost var m0 := model.eqs.AsModel();
      FewerSelf(m0);
      for k := 0 to |names|
        invariant model.Valid() && Fewer(m0, model.eqs.AsModel())
        invariant forall a: Atom :: a in model.eqs.atoms.vars ==> a in old(model.eqs.atoms.vars) && !(a.name in names[..k] && a.ll >= 2)
      {
        ghost var m := model.eqs.AsModel();
        UnassignName(names[k]);
        FewerTrans(m0, m, model.eqs.AsModel());
        assert names[..k + 1] == names[..k] + [names[k]];
      }
      assert names[..|names|] == names;
    }

    /** Replaces all terms that lead by more than one; fails only when the name of an auxiliary variable is taken. */
    method Build(ghost bound: int) returns (ok: bool)
      requires model.Valid() && Tractable(model.eqs.AsModel(), bound) && 1 <= bound <= 0x2000_0000
      modifies this, model.eqs`formulas, model.eqs.otree, model.eqs.atoms
      ensures model.Valid() && (AllFree(old(model.eqs.atoms.varnames)) ==> ok)
      ensures ok ==> Conservative(old(model.eqs.AsModel()), old(model.eqs.atoms.varnames), model.eqs.AsModel(), model.eqs.atoms.varnames)
      ensures ok ==> forall i: nat :: i < |model.eqs.formulas| ==> LeadsUpTo(model.eqs.AsModel(), model.eqs.formulas[i], 1)
      ensures ok ==> forall a: Atom :: a in model.eqs.atoms.vars && model.IsVariableName(a.name) ==> a.ll <= 1
      ensures ok ==> model.eqs.otree.Valid()
    {
      hide Conservative, AfterEquations, Tractable, DynareModel.Valid, Later, LeadsUpTo, NewLeadsShort, IsModel, NamesBefore, AllFree;
      ghost var m0, names0 := model.eqs.AsModel(), model.eqs.atoms.varnames;
      NoNamesYet(names0);
      model.Parts();
      ConservativeSelf(m0, names0);
      NoEquationsYet(m0);
      var neq := |model.eqs.formulas|;
      for i := 0 to neq
        invariant BetweenEquations(m0, names0, i)
      {
        ok := SubstituteEquation(i, bound, m0, names0);
        if !ok {
          return;
        }
      }
      ok := true;
      UnassignGt1Leads(m0, names0);
      model.Parts();
      ForgetDerivatives();
    }

    /** Takes the leaves from all leads greater than one, and forgets all derivatives. */
    method UnassignGt1Leads(ghost m0: Model, ghost names0: set<string>)
      requires BetweenEquations(m0, names0, |m0.formulas|)
      modifies model.eqs.atoms`vars, model.eqs.atoms`indices, model.eqs.atoms`nv, model.eqs.atoms`minlag, model.eqs.atoms`maxlead
      ensures model.Valid() && Conservative(m0, names0, model.eqs.AsModel(), model.eqs.atoms.varnames)
      ensures forall i: nat :: i < |model.eqs.formulas| ==> IsModel(model.eqs.AsModel()) && LeadsUpTo(model.eqs.AsModel(), model.eqs.formulas[i], 1)
      ensures forall a: Atom :: a in model.eqs.atoms.vars && model.IsVariableName(a.name) ==> a.ll <= 1
    {
      hide Conservative, AfterEquations, DynareModel.Valid, LeadsUpTo, IsModel, Fewer;
      ghost var m1, names := model.eqs.AsModel(), model.eqs.atoms.varnames;
      AllShort(m0, m1);
      model.Parts();
      UnassignNames(model.eqs.atoms.endovars);
      ghost var m2 := model.eqs.AsModel();
      UnassignNames(model.eqs.atoms.exovars);
      FewerTrans(m1, m2, model.eqs.AsModel());
      model.Parts();
      FewerConservative(m1, model.eqs.AsModel(), names);
      ConservativeTrans(m0, names0, m1, names, model.eqs.AsModel(), names);
    }

    method ForgetDerivatives()
      requires model.Valid()
      modifies model.eqs.otree`derivatives
      ensures model.Valid() && model.eqs.AsModel() == old(model.eqs.AsModel()) && model.eqs.otree.Valid()
    {
      model.eqs.otree.ForgetDerivativeMaps();
    }

    lemma ValidParts(leaf: nat, m0: Model, m1: Model, name: string)
      requires model.Valid() && m1 == model.eqs.AsModel() && leaf in m1.atoms && GrowsTo(m0, m1) && name in model.eqs.atoms.endovars
      ensures model.eqs.Valid() && Typed(model.eqs.atoms) && leaf < |m1.terms| && |m0.terms| <= |m1.terms| && name !in m1.params
      ensures ConstantsApart(m1)
    {
      hide OperationTree.Shape, Spans, Matched;
      assert IsLeaf(m1.terms, leaf);
    }
  }

  lemma MoreFormula(m0: Model, m1: Model, m2: Model, f: nat)
    requires GrowsTo(m0, m1) && m2 == m1.(terms := m2.terms, formulas := m1.formulas + [f]) && m1.terms <= m2.terms
    ensures GrowsTo(m0, m2)
  {
    assert GrowsTo(m1, m2);
    GrowsToTrans(m0, m1, m2);
  }

  lemma SameConstants(m1: Model, m2: Model)
    requires ConstantsApart(m1) && m2.consts == m1.consts && m2.atoms == m1.atoms
    ensures ConstantsApart(m2)
  {
  }

  /** Before any auxiliary variable: the shifted term has been built. */
  lemma ShiftStartsChain(m0: Model, m1: Model, m2: Model, sourcemap: map<Operation, nat>, opmap: map<Operation, nat>, leaves: set<nat>,
                         subst: map<nat, nat>, t: nat, lagt: nat, mlead: int, names: set<string>)
    requires IsModel(m0) && IsModel(m1) && IsModel(m2) && GrowsTo(m0, m1) && m1.formulas == m0.formulas
    requires m2 == m1.(terms := m2.terms) && m1.terms <= m2.terms && t < |m0.terms| && leaves == Leaves(m0.terms, t)
    requires Consed(m1.terms, sourcemap) && Consed(m2.terms, opmap) && Reduced(m1.terms) && OneLeafEach(m2) && NamesIn(m0, names)
    requires ShiftMap(m1, leaves, subst, 1 - mlead) && lagt < |m2.terms| && Image(m1.terms, opmap, subst, t) == Some(lagt)
    requires LeadsUpTo(m0, t, mlead)
    ensures InChain(m0, names, m2, names, t, lagt, mlead, [])
  {
    hide Consed, Reduced, OneLeafEach, Image, WellFormed;
    var d := 1 - mlead;
    LeavesGrow(m0.terms, m1.terms, t);
    assert Built(m2, m1.terms, sourcemap, opmap, subst, t, lagt, d) by {
      assert forall l: nat :: l in leaves ==> ShiftsLeaf(m1, subst, d, l) && ShiftsLeaf(m2, subst, d, l);
    }
    hide ShiftMap, Built, TermValue;
    forall F: Funs, path: Path, s: int
      ensures ShiftedAt(F, m2, t, lagt, d, path, s)
    {
      ShiftedValue(F, m2, m1.terms, sourcemap, opmap, subst, t, lagt, d, path, s);
    }
    OldLeafNames(m0, m1, m2, names, leaves, subst, t, mlead);
    ShiftedReads(m2, m1.terms, sourcemap, opmap, subst, t, lagt, d, names, mlead);
    GrowsWithTerms(m0, m1, m2);
    assert ChainNames([]) == {};
  }

  lemma OldLeafNames(m0: Model, m1: Model, m2: Model, names: set<string>, leaves: set<nat>, subst: map<nat, nat>, t: nat, mlead: int)
    requires IsModel(m0) && IsModel(m1) && GrowsTo(m0, m1) && t < |m0.terms| && leaves == Leaves(m0.terms, t) && m2.atoms == m1.atoms
    requires NamesIn(m0, names) && ShiftMap(m1, leaves, subst, 1 - mlead) && LeadsUpTo(m0, t, mlead)
    ensures forall l: nat :: l in leaves && l in m2.atoms ==> m2.atoms[l].name in names
    ensures forall l: nat :: l in leaves && l in subst ==> l in m2.atoms && m2.atoms[l].ll <= mlead
  {
    LeavesAreLeaves(m0.terms, t);
    forall l: nat | l in leaves && l in subst
      ensures l in m2.atoms && m2.atoms[l].ll <= mlead
    {
      assert ShiftsLeaf(m1, subst, 1 - mlead, l);
    }
  }

  lemma GrowsWithTerms(m0: Model, m1: Model, m2: Model)
    requires GrowsTo(m0, m1) && m2 == m1.(terms := m2.terms) && m1.terms <= m2.terms
    ensures GrowsTo(m0, m2)
  {
  }

  lemma LinkStaysPut(m: Model, m': Model, lagt: nat, defs: seq<Def>, d: Def)
    requires GrowsTo(m, m')
    requires if |defs| == 0 then d.def == lagt else d.def in m.atoms && m.atoms[d.def] == Atom(defs[|defs| - 1].name, 1)
    ensures LinksTo(m', lagt, defs + [d], |defs|)
  {
  }

  lemma InChainParts(m0: Model, names0: set<string>, m: Model, names: set<string>, t: nat, lagt: nat, mlead: int, defs: seq<Def>)
    requires InChain(m0, names0, m, names, t, lagt, mlead, defs)
    ensures IsModel(m0) && IsModel(m) && GrowsTo(m0, m) && t < |m0.terms| <= |m.terms| && lagt < |m.terms|
  {
  }

  /** The span of the variables of a term bounds its leads. */
  lemma LeadsOfSpan(m: Model, t: nat, mlag: int, mlead: int, bound: int)
    requires IsModel(m) && t < |m.terms| && Spans(VariablesOf(m, t), mlag, mlead) && SmallLeads(m, t, bound)
    ensures LeadsUpTo(m, t, mlead) && (mlead > 1 ==> mlead <= bound && !LeadsUpTo(m, t, 1))
  {
    forall l: nat | l in Leaves(m.terms, t) && IsVariableLeaf(m, l)
      ensures m.atoms[l] in VariablesOf(m, t)
    {
    }
    if mlead > 1 {
      var a: Atom :| a in VariablesOf(m, t) && a.ll == mlead;
      var l: nat :| l in Leaves(m.terms, t) && IsVariableLeaf(m, l) && m.atoms[l] == a;
    }
  }

  lemma NothingReplaced(m: Model, names: set<string>, t: nat, mlead: int)
    requires IsModel(m) && t < |m.terms| && LeadsUpTo(m, t, mlead) && mlead <= 1
    ensures Conservative(m, names, m, names) && Later(m, m, {t}) && NewLeadsShort(m, m) && LeadsUpTo(m, t, 1)
  {
    ConservativeSelf(m, names);
  }

  lemma StillLong(m0: Model, m: Model, t: nat)
    requires IsModel(m0) && IsModel(m) && GrowsTo(m0, m) && t < |m0.terms| && !LeadsUpTo(m0, t, 1)
    ensures t < |m.terms| && !LeadsUpTo(m, t, 1)
  {
    LeavesGrow(m0.terms, m.terms, t);
  }

  lemma BecameShort(m: Model, t: nat, a: Atom)
    requires t < |m.terms| && IsModel(WithAtomFor(m, t, a)) && a.ll == 1
    ensures LeadsUpTo(WithAtomFor(m, t, a), t, 1)
  {
    var m' := WithAtomFor(m, t, a);
    assert m'.terms[t] == Nulary;
    assert Leaves(m'.terms, t) == {t};
  }

  // ----- the names of the auxiliary variables -----

  /** The name of an auxiliary variable for the j-th term of equation i. */
  ghost predicate IsLeadName(n: string, i: nat, j: nat) {
    exists k: nat :: n == AuxLeadName(i, j, k)
  }

  /** The first ll variables for a term were free and have been added. */
  ghost predicate LeadsNamed(names0: set<string>, names: set<string>, i: nat, j: nat, ll: nat) {
    && (forall k: nat :: 1 <= k <= ll ==> AuxLeadName(i, j, k) !in names0)
    && names0 <= names && (forall n: string :: n in names ==> n in names0 || IsLeadName(n, i, j))
    && (forall k: nat :: k > ll && AuxLeadName(i, j, k) in names ==> AuxLeadName(i, j, k) in names0)
  }

  /** Adding the next variable. */
  lemma NewLeadName(names0: set<string>, names: set<string>, i: nat, j: nat, k: nat)
    requires k > 0 && (LeadsNamed(names0, names, i, j, k - 1) || (k == 1 && names == names0))
    ensures AuxLeadName(i, j, k) in names ==> AuxLeadName(i, j, k) in names0
    ensures AuxLeadName(i, j, k) !in names ==> LeadsNamed(names0, names + {AuxLeadName(i, j, k)}, i, j, k)
  {
    hide AuxLeadName;
    assert IsLeadName(AuxLeadName(i, j, k), i, j);
    forall l: nat | l > k && AuxLeadName(i, j, l) in names + {AuxLeadName(i, j, k)}
      ensures AuxLeadName(i, j, l) in names
    {
      if AuxLeadName(i, j, l) == AuxLeadName(i, j, k) { AuxLeadInjective(i, j, l, i, j, k); }
    }
    forall l: nat | 1 <= l <= k && AuxLeadName(i, j, k) !in names
      ensures AuxLeadName(i, j, l) !in names0
    {
    }
  }

  /** No auxiliary variable that the term needs is declared. */
  ghost predicate TermFree(m: Model, t: nat, i: nat, j: nat, names: set<string>)
    requires IsModel(m) && t < |m.terms|
  {
    forall k: nat :: k >= 1 && !LeadsUpTo(m, t, k) ==> AuxLeadName(i, j, k) !in names
  }

  /** A term needs one auxiliary variable for each lead from one below its greatest one. */
  lemma NamesOfSpan(m: Model, t: nat, mlag: int, mlead: int, i: nat, j: nat, names: set<string>)
    requires IsModel(m) && t < |m.terms| && Spans(VariablesOf(m, t), mlag, mlead)
    ensures TermFree(m, t, i, j, names) <==> forall k: nat :: 1 <= k < mlead ==> AuxLeadName(i, j, k) !in names
  {
    hide AuxLeadName;
    forall k: nat | k >= 1
      ensures LeadsUpTo(m, t, k) <==> mlead <= k
    {
      LeadsBySpan(m, t, mlag, mlead, k);
    }
  }

  /** No auxiliary variable at all is declared. */
  ghost predicate AllFree(names: set<string>) {
    forall i: nat, j: nat, k: nat :: AuxLeadName(i, j, k) !in names
  }

  /** The added names belong to earlier equations, and to earlier terms of equation i. */
  ghost predicate NamesBefore(names0: set<string>, names: set<string>, i: nat, j: nat) {
    forall n: string :: n in names ==> n in names0 || NameBefore(n, i, j)
  }

  ghost predicate NameBefore(n: string, i: nat, j: nat) {
    exists i': nat, j': nat, k: nat :: n == AuxLeadName(i', j', k) && (i' < i || (i' == i && j' < j))
  }

  lemma NoNamesYet(names: set<string>)
    ensures NamesBefore(names, names, 0, 0)
  {
  }

  lemma StillFree(names0: set<string>, names: set<string>, i: nat, j: nat, m: Model, t: nat)
    requires NamesBefore(names0, names, i, j) && IsModel(m) && t < |m.terms|
    ensures AllFree(names0) ==> TermFree(m, t, i, j, names)
  {
    hide AuxLeadName, LeadsUpTo;
    if AllFree(names0) {
      forall k: nat
        ensures AuxLeadName(i, j, k) !in names
      {
        if NameBefore(AuxLeadName(i, j, k), i, j) {
          var i': nat, j': nat, l: nat :| AuxLeadName(i, j, k) == AuxLeadName(i', j', l) && (i' < i || (i' == i && j' < j));
          AuxLeadInjective(i, j, k, i', j', l);
        }
      }
    }
  }

  lemma NamesAfterTerm(names0: set<string>, names: set<string>, more: set<string>, i: nat, j: nat)
    requires NamesBefore(names0, names, i, j) && forall n: string :: n in more ==> n in names || IsLeadName(n, i, j)
    ensures NamesBefore(names0, more, i, j + 1)
  {
    hide AuxLeadName;
    forall n: string | n in more && n !in names0
      ensures NameBefore(n, i, j + 1)
    {
      if n in names {
        assert NameBefore(n, i, j);
        var i': nat, j': nat, k: nat :| n == AuxLeadName(i', j', k) && (i' < i || (i' == i && j' < j));
        assert i' < i || (i' == i && j' < j + 1);
      } else {
        var k: nat :| n == AuxLeadName(i, j, k);
      }
    }
  }

  lemma NamesAfterEquation(names0: set<string>, names: set<string>, i: nat, j: nat)
    requires NamesBefore(names0, names, i, j)
    ensures NamesBefore(names0, names, i + 1, 0)
  {
    hide AuxLeadName;
    forall n: string | n in names && n !in names0
      ensures NameBefore(n, i + 1, 0)
    {
      assert NameBefore(n, i, j);
      var i': nat, j': nat, k: nat :| n == AuxLeadName(i', j', k) && (i' < i || (i' == i && j' < j));
      assert i' < i + 1;
    }
  }

  // ----- one equation -----

  /** A chosen term can be replaced. */
  ghost predicate ReadyTerm(m: Model, eq: nat, nlt: set<nat>, u: nat, bound: int)
    requires IsModel(m) && eq < |m.formulas|
  {
    && NUM_CONSTANTS <= u < |m.terms| && Closed(m, u) && SmallLeads(m, u, bound)
    && Meets(m.terms, m.formulas[eq], nlt, u)
  }

  ghost predicate Ready(m: Model, eq: nat, nlt: set<nat>, bound: int) {
    IsModel(m) && eq < |m.formulas| && forall u: nat :: u in nlt ==> ReadyTerm(m, eq, nlt, u, bound)
  }

  /** Some of the chosen terms have been replaced, and lead by at most one. */
  ghost predicate AfterTerms(ms: Model, m: Model, done: set<nat>) {
    && IsModel(ms) && IsModel(m) && Later(ms, m, done) && NewLeadsShort(ms, m)
    && forall u: nat :: u in done ==> u < |ms.terms| <= |m.terms| && LeadsUpTo(m, u, 1)
  }

  lemma NoTermsYet(ms: Model)
    requires IsModel(ms)
    ensures forall s: set<nat> :: AfterTerms(ms, ms, s - s)
  {
    forall s: set<nat>
      ensures AfterTerms(ms, ms, s - s)
    {
      assert s - s == {};
    }
  }

  lemma NextTerm(ms: Model, m: Model, eq: nat, nlt: set<nat>, done: set<nat>, t: nat, bound: int)
    requires AfterTerms(ms, m, done) && Ready(ms, eq, nlt, bound) && t in nlt && done <= nlt && bound >= 1
    ensures eq < |m.formulas| && NUM_CONSTANTS <= t < |ms.terms| <= |m.terms| && Closed(m, t) && SmallLeads(m, t, bound)
    ensures Reaches(m.terms, m.formulas[eq], t)
  {
    hide Closed, SmallLeads, Meets, Reaches;
    assert ReadyTerm(ms, eq, nlt, t, bound);
    LaterClosed(ms, m, done, t);
    LaterSmall(ms, m, done, t, bound);
    assert m.formulas[eq] == ms.formulas[eq];
    LaterMeets(ms, m, done, ms.formulas[eq], nlt, t);
    MeetsReaches(m.terms, m.formulas[eq], nlt, t);
  }

  lemma OneTermMore(ms: Model, m: Model, done: set<nat>, t: nat, m': Model)
    requires AfterTerms(ms, m, done) && IsModel(m') && Later(m, m', {t}) && NewLeadsShort(m, m')
    requires t < |ms.terms| && t < |m'.terms| && LeadsUpTo(m', t, 1)
    ensures AfterTerms(ms, m', done + {t})
  {
    hide LeadsUpTo, IsModel;
    LaterTrans(ms, m, m', done, {t});
    forall u: nat | u in done
      ensures u < |ms.terms| <= |m'.terms| && LeadsUpTo(m', u, 1)
    {
      LaterLeads(m, m', {t}, u, 1);
    }
    ShortStays(ms, m, m', {t});
  }

  lemma ShortStays(m0: Model, m: Model, m': Model, replaced: set<nat>)
    requires IsModel(m) && IsModel(m') && Later(m, m', replaced) && NewLeadsShort(m0, m) && NewLeadsShort(m, m')
    ensures NewLeadsShort(m0, m')
  {
    hide LeadsUpTo;
    forall i: nat | |m0.formulas| <= i < |m'.formulas|
      ensures LeadsUpTo(m', m'.formulas[i], 1)
    {
      if i < |m.formulas| {
        assert m'.formulas[i] == m.formulas[i];
        LaterLeads(m, m', replaced, m.formulas[i], 1);
      }
    }
  }

  // ----- all equations -----

  /** All equations are over named leaves with small leads. */
  ghost predicate Tractable(m: Model, bound: int) {
    IsModel(m) && forall i: nat :: i < |m.formulas| ==> Closed(m, m.formulas[i]) && SmallLeads(m, m.formulas[i], bound)
  }

  ghost function AllTerms(m: Model): set<nat> {
    UpTo(|m.terms|)
  }

  ghost function UpTo(n: nat): (r: set<nat>)
    ensures forall k: nat :: k in r <==> k < n
  {
    if n == 0 then {} else UpTo(n - 1) + {n - 1}
  }

  /** The first k equations and all new ones lead by at most one. */
  ghost predicate AfterEquations(m0: Model, m: Model, k: nat) {
    && IsModel(m0) && IsModel(m) && k <= |m0.formulas| && Later(m0, m, AllTerms(m0)) && NewLeadsShort(m0, m)
    && forall i: nat :: i < k ==> LeadsUpTo(m, m.formulas[i], 1)
  }

  lemma LaterMore(m0: Model, m1: Model, r: set<nat>, q: set<nat>)
    requires Later(m0, m1, r) && r <= q
    ensures Later(m0, m1, q)
  {
    forall n: nat | n < |m0.terms|
      ensures LaterAt(m0, m1, q, n)
    {
      assert LaterAt(m0, m1, r, n);
    }
  }

  lemma NoEquationsYet(m: Model)
    requires IsModel(m)
    ensures AfterEquations(m, m, 0)
  {
    LaterSelf(m);
    LaterMore(m, m, {}, AllTerms(m));
  }

  lemma EquationTractable(m0: Model, m: Model, k: nat, bound: int)
    requires AfterEquations(m0, m, k) && k < |m0.formulas| && Tractable(m0, bound) && bound >= 1
    ensures k < |m.formulas| && m.formulas[k] < |m.terms| && Closed(m, m.formulas[k]) && SmallLeads(m, m.formulas[k], bound)
  {
    hide Closed, SmallLeads;
    assert m.formulas[k] == m0.formulas[k];
    LaterClosed(m0, m, AllTerms(m0), m0.formulas[k]);
    LaterSmall(m0, m, AllTerms(m0), m0.formulas[k], bound);
  }

  lemma EquationShort(m0: Model, m: Model, k: nat, mlead: int)
    requires AfterEquations(m0, m, k) && k < |m0.formulas| && k < |m.formulas| && mlead <= 1
    requires m.formulas[k] < |m.terms| && LeadsUpTo(m, m.formulas[k], mlead)
    ensures AfterEquations(m0, m, k + 1)
  {
  }

  lemma EquationDone(m0: Model, ms: Model, m: Model, k: nat, nlt: set<nat>)
    requires AfterEquations(m0, ms, k) && k < |m0.formulas| && AfterTerms(ms, m, nlt)
    requires k < |ms.formulas| && ms.formulas[k] < |ms.terms| && Covers(ms, ms.formulas[k], nlt)
    ensures AfterEquations(m0, m, k + 1)
  {
    hide LeadsUpTo, Covers;
    assert m.formulas[k] == ms.formulas[k];
    LaterCovers(ms, m, nlt, ms.formulas[k], nlt);
    CoveredLeads(m, m.formulas[k], nlt, 1);
    forall i: nat | i < k
      ensures LeadsUpTo(m, m.formulas[i], 1)
    {
      assert m.formulas[i] == ms.formulas[i];
      LaterLeads(ms, m, nlt, ms.formulas[i], 1);
    }
    ShortStays(m0, ms, m, nlt);
    LaterEnd(m0, ms, m, nlt);
  }

  lemma LaterEnd(m0: Model, ms: Model, m: Model, nlt: set<nat>)
    requires Later(m0, ms, AllTerms(m0)) && Later(ms, m, nlt)
    ensures Later(m0, m, AllTerms(m0))
  {
    forall n: nat | n < |m0.terms|
      ensures LaterAt(m0, m, AllTerms(m0), n)
    {
      assert LaterAt(m0, ms, AllTerms(m0), n) && LaterAt(ms, m, nlt, n);
    }
  }

  // ----- atoms that are no longer used -----

  /** Atoms of variables that lead by more than one have been taken away, and nothing else. */
  ghost predicate Fewer(m: Model, m': Model) {
    && m' == m.(atoms := m'.atoms)
    && (forall t: nat :: t in m'.atoms ==> t in m.atoms && m'.atoms[t] == m.atoms[t])
    && (forall t: nat :: t in m.atoms && t !in m'.atoms ==> m.atoms[t].ll >= 2 && m.atoms[t].name !in m.params)
  }

  lemma FewerSelf(m: Model)
    ensures Fewer(m, m)
  {
  }

  lemma FewerTrans(m0: Model, m1: Model, m2: Model)
    requires Fewer(m0, m1) && Fewer(m1, m2)
    ensures Fewer(m0, m2)
  {
  }

  lemma OneAtomFewer(m0: Model, m: Model, t: nat, m': Model)
    requires Fewer(m0, m) && m' == m.(atoms := m.atoms - {t}) && t in m.atoms && m.atoms[t].ll >= 2 && m.atoms[t].name !in m.params
    requires IsModel(m)
    ensures Fewer(m0, m') && IsModel(m')
  {
  }

  lemma AllShort(m0: Model, m: Model)
    requires AfterEquations(m0, m, |m0.formulas|)
    ensures IsModel(m) && forall i: nat :: i < |m.formulas| ==> LeadsUpTo(m, m.formulas[i], 1)
  {
  }

  /** The atoms that have been taken away do not occur in the equations. */
  lemma FewerConservative(m: Model, m': Model, names: set<string>)
    requires IsModel(m) && IsModel(m') && Fewer(m, m')
    requires forall i: nat :: i < |m.formulas| ==> LeadsUpTo(m, m.formulas[i], 1)
    ensures Conservative(m, names, m', names)
    ensures forall i: nat :: i < |m'.formulas| ==> LeadsUpTo(m', m'.formulas[i], 1)
  {
    hide IsModel, HoldsAt;
    forall F: Funs, x: Path
      ensures Solves(F, m', x) <==> Solves(F, m, x)
    {
      forall i: nat, s: int | i < |m.formulas|
        ensures HoldsAt(F, m', x, i, s) <==> HoldsAt(F, m, x, i, s)
      {
        FewerHolds(F, m, m', x, i, s);
      }
    }
    SameSolutions(m, m', names);
  }

  lemma FewerHolds(F: Funs, m: Model, m': Model, x: Path, i: nat, s: int)
    requires IsModel(m) && IsModel(m') && Fewer(m, m') && i < |m.formulas| && LeadsUpTo(m, m.formulas[i], 1)
    ensures HoldsAt(F, m', x, i, s) <==> HoldsAt(F, m, x, i, s)
  {
    var p, q, f := PointAt(m, x, s), PointAt(m', x, s), m.formulas[i];
    forall l: nat | l in Leaves(m.terms, f)
      ensures LeafJet(F, p, l) == LeafJet(F, q, l)
    {
      assert l in p <==> l in q;
      if l in p { assert LeafValue(m, x, s, l) == LeafValue(m', x, s, l); }
    }
    EvalSamePoint(F, m.terms, p, q, f);
  }
}
