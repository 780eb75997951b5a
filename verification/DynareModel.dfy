/** A parsed model: its equations, the types of its names, and the tests and shifts on its terms. */
module DynareModels {
  import opened Wrappers
  import opened Reals
  import opened Jets
  import opened Terms
  import opened OperationTrees
  import opened DynamicAtomsModule
  import opened ModelMeaning
  import opened FormulaParserModule
  import opened LagElimination
  import opened ModelSteps
  import opened ForwardMeaning
  import opened ShiftedTerms

  /** The leaf belongs to a variable, endogenous or exogenous. */
  predicate IsVariableLeaf(m: Model, l: nat) {
    l in m.atoms && m.atoms[l].name !in m.params
  }

  /** All leaves of the term are constants or have atoms. */
  ghost predicate Closed(m: Model, t: nat)
    requires IsModel(m) && t < |m.terms|
  {
    forall l: nat :: l in Leaves(m.terms, t) ==> IsConstantLeaf(m, l) || l in m.atoms
  }

  predicate IsConstantLeaf(m: Model, l: nat) {
    l < NUM_CONSTANTS || l in m.consts
  }

  /** The atoms of the variables in a term. */
  ghost function VariablesOf(m: Model, t: nat): set<Atom>
    requires IsModel(m) && t < |m.terms|
  {
    set l: nat | l in Leaves(m.terms, t) && IsVariableLeaf(m, l) :: m.atoms[l]
  }

  /** The variables of a term lead by at most ll. */
  ghost predicate LeadsUpTo(m: Model, t: nat, ll: int)
    requires IsModel(m) && t < |m.terms|
  {
    forall l: nat :: l in Leaves(m.terms, t) && IsVariableLeaf(m, l) ==> m.atoms[l].ll <= ll
  }

  /** The greatest lead of the variables of a term. */
  lemma LeadsBySpan(m: Model, t: nat, mlag: int, mlead: int, k: nat)
    requires IsModel(m) && t < |m.terms| && Spans(VariablesOf(m, t), mlag, mlead)
    ensures LeadsUpTo(m, t, k) <==> mlead <= k
  {
    if mlead <= k {
      forall l: nat | l in Leaves(m.terms, t) && IsVariableLeaf(m, l)
        ensures m.atoms[l].ll <= k
      {
        assert m.atoms[l] in VariablesOf(m, t);
      }
    } else {
      var a: Atom :| a in VariablesOf(m, t) && a.ll == mlead;
      var l: nat :| l in Leaves(m.terms, t) && IsVariableLeaf(m, l) && m.atoms[l] == a;
    }
  }

  /** Every path down from the term ends in the set or in a leaf that is no variable. */
  ghost predicate Covers(m: Model, t: nat, chosen: set<nat>)
    requires IsModel(m) && t < |m.terms|
    decreases t
  {
    assert OperandsBelow(m.terms[t], t);
    t in chosen ||
    match m.terms[t]
    case Nulary => !IsVariableLeaf(m, t)
    case Unary(_, a) => Covers(m, a, chosen)
    case Binary(_, a, b) => Covers(m, a, chosen) && Covers(m, b, chosen)
  }

  /** Some path down from t meets u before any other term of the set. */
  ghost predicate Meets(terms: seq<Operation>, t: nat, chosen: set<nat>, u: nat)
    requires WellFormed(terms) && t < |terms|
    decreases t
  {
    assert OperandsBelow(terms[t], t);
    t == u ||
    (t !in chosen &&
    match terms[t]
    case Nulary => false
    case Unary(_, a) => Meets(terms, a, chosen, u)
    case Binary(_, a, b) => Meets(terms, a, chosen, u) || Meets(terms, b, chosen, u))
  }

  lemma {:induction false} MeetsReaches(terms: seq<Operation>, t: nat, chosen: set<nat>, u: nat)
    requires WellFormed(terms) && t < |terms| && Meets(terms, t, chosen, u)
    ensures Reaches(terms, t, u)
    decreases t
  {
    assert OperandsBelow(terms[t], t);
    if t != u {
      match terms[t]
      case Unary(_, a) => MeetsReaches(terms, a, chosen, u);
      case Binary(_, a, b) => if Meets(terms, a, chosen, u) { MeetsReaches(terms, a, chosen, u); } else { MeetsReaches(terms, b, chosen, u); }
    }
  }

  /** A larger set covers as well. */
  lemma {:induction false} CoversMore(m: Model, t: nat, chosen: set<nat>, more: set<nat>)
    requires IsModel(m) && t < |m.terms| && Covers(m, t, chosen) && chosen <= more
    ensures Covers(m, t, more)
    decreases t
  {
    assert OperandsBelow(m.terms[t], t);
    if t !in chosen {
      match m.terms[t]
      case Nulary =>
      case Unary(_, a) => CoversMore(m, a, chosen, more);
      case Binary(_, a, b) => CoversMore(m, a, chosen, more); CoversMore(m, b, chosen, more);
    }
  }

  /** When all chosen terms lead by at most ll, so does the term they cover. */
  lemma {:induction false} CoveredLeads(m: Model, t: nat, chosen: set<nat>, ll: int)
    requires IsModel(m) && t < |m.terms| && Covers(m, t, chosen)
    requires forall u: nat :: u in chosen ==> u < |m.terms| && LeadsUpTo(m, u, ll)
    ensures LeadsUpTo(m, t, ll)
    decreases t
  {
    assert OperandsBelow(m.terms[t], t);
    if t !in chosen {
      match m.terms[t]
      case Nulary =>
      case Unary(_, a) => CoveredLeads(m, a, chosen, ll);
      case Binary(_, a, b) => CoveredLeads(m, a, chosen, ll); CoveredLeads(m, b, chosen, ll);
    }
  }

  class DynareModel {
    const eqs: FormulaParser

    ghost predicate Valid()
      reads eqs, eqs.otree, eqs.atoms
    {
      eqs.Valid() && Typed(eqs.atoms) && ConstantsApart(eqs.AsModel())
    }

    constructor (fp: FormulaParser)
      requires fp.Valid() && Typed(fp.atoms) && ConstantsApart(fp.AsModel())
      ensures Valid() && eqs == fp
    {
      eqs := fp;
    }

    predicate IsConstant(t: nat)
      reads eqs.atoms
    {
      t < NUM_CONSTANTS || t in eqs.atoms.consts
    }

    /** The name is an endogenous or an exogenous variable. */
    predicate IsVariableName(name: string)
      reads eqs.atoms
    {
      name in eqs.atoms.endovars || name in eqs.atoms.exovars
    }

    /** The leads of the variables of a term. */
    method Termspan(t: nat) returns (mlead: int, mlag: int)
      requires Valid() && t < |eqs.otree.terms| && Closed(eqs.AsModel(), t)
      ensures Spans(VariablesOf(eqs.AsModel(), t), mlag, mlead)
    {
      var found := set l: nat | l in eqs.otree.nulIncidence[t] && !IsConstant(l) && IsVariableName(eqs.atoms.indices[l].name) :: eqs.atoms.indices[l];
      VariableLeaves(t);
      assert found == VariablesOf(eqs.AsModel(), t);
      mlag, mlead := SpanOf(found);
    }

    lemma VariableLeaves(t: nat)
      requires Valid() && t < |eqs.otree.terms| && Closed(eqs.AsModel(), t)
      ensures eqs.otree.nulIncidence[t] == Leaves(eqs.otree.terms, t)
      ensures forall l: nat :: l in Leaves(eqs.otree.terms, t) ==>
        (IsVariableLeaf(eqs.AsModel(), l) <==> !IsConstant(l) && l in eqs.atoms.indices && IsVariableName(eqs.atoms.indices[l].name))
      ensures forall l: nat :: l in Leaves(eqs.otree.terms, t) && !IsConstant(l) ==> l in eqs.atoms.indices
      ensures forall a: Atom :: a in VariablesOf(eqs.AsModel(), t) ==> InRange(a.ll)
    {
      hide Consed, Reduced, Spans;
      forall l: nat | l in Leaves(eqs.otree.terms, t)
        ensures IsVariableLeaf(eqs.AsModel(), l) <==> !IsConstant(l) && l in eqs.atoms.indices && IsVariableName(eqs.atoms.indices[l].name)
      {
        if l in eqs.atoms.indices {
          TypedLeaf(l);
        }
      }
    }

    lemma TypedLeaf(l: nat)
      requires Valid() && l in eqs.atoms.indices
      ensures !IsConstant(l) && (eqs.atoms.indices[l].name !in eqs.AsModel().params <==> IsVariableName(eqs.atoms.indices[l].name))
    {
      assert IsLeaf(eqs.otree.terms, l);
      assert eqs.atoms.indices[l] in eqs.atoms.vars;
    }

    /** All leaves of the term are constants or parameters. */
    predicate IsConstantTerm(t: nat)
      requires t < |eqs.otree.nulIncidence|
      reads eqs.otree, eqs.atoms
    {
      forall l: nat :: l in eqs.otree.nulIncidence[t] ==>
        IsConstant(l) || (l in eqs.atoms.indices && eqs.atoms.indices[l].name in eqs.atoms.params)
    }

    /** The test for terms that are not broken up further; a quotient always passes it. */
    predicate NLSelector(t: nat)
      requires t < |eqs.otree.terms| && |eqs.otree.nulIncidence| == |eqs.otree.terms| && OperandsBelow(eqs.otree.terms[t], t)
      reads eqs.otree, eqs.atoms
    {
      !IsConstantTerm(t) &&
      match eqs.otree.terms[t]
      case Nulary => t in eqs.atoms.indices && IsVariableName(eqs.atoms.indices[t].name)
      case Unary(code, _) => code != UMINUS
      case Binary(code, op1, op2) =>
        if code == TIMES then !(IsConstantTerm(op1) || IsConstantTerm(op2))
        else if code == PLUS || code == MINUS then false
        else if code == POWER && (op1 == ZERO || op1 == ONE || op2 == ZERO || op2 == ONE) then false
        else true
    }

    /** The leaf of a variable tshift periods later; fails exactly when the leaf is no variable. */
    method VariableShift(t: nat, tshift: int) returns (res: Option<nat>)
      requires Valid() && (t in eqs.atoms.indices ==> InRange(eqs.atoms.indices[t].ll + tshift))
      modifies eqs.otree, eqs.atoms`vars, eqs.atoms`indices, eqs.atoms`nv, eqs.atoms`minlag, eqs.atoms`maxlead
      ensures Valid() && eqs.formulas == old(eqs.formulas) && GrowsTo(old(eqs.AsModel()), eqs.AsModel())
      ensures res.Some? <==> IsVariableLeaf(old(eqs.AsModel()), t)
      ensures res.Some? ==> res.value in eqs.AsModel().atoms && eqs.AsModel().atoms[res.value] == Shifted(old(eqs.atoms.indices)[t], tshift)
      ensures LeafGrowth(old(eqs.AsModel()), eqs.AsModel(), if t in old(eqs.atoms.indices) then Abs(old(eqs.atoms.indices)[t].ll + tshift) else 0)
    {
      hide OperationTree.Shape, Spans, IsModel;
      if t !in eqs.atoms.indices || IsConstant(t) || eqs.atoms.indices[t].name in eqs.atoms.params {
        NotVariable(t);
        return None;
      }
      TypedLeaf(t);
      var a := Atom(eqs.atoms.indices[t].name, eqs.atoms.indices[t].ll + tshift);
      KnownAtom(t);
      res := LeafOf(a);
    }

    lemma NotVariable(t: nat)
      requires Valid() && (t !in eqs.atoms.indices || IsConstant(t) || eqs.atoms.indices[t].name in eqs.atoms.params)
      ensures !IsVariableLeaf(eqs.AsModel(), t) && GrowsTo(eqs.AsModel(), eqs.AsModel())
    {
      hide OperationTree.Shape, Spans, IsModel;
      if t in eqs.atoms.indices { TypedLeaf(t); }
    }

    lemma KnownAtom(t: nat)
      requires Valid() && t in eqs.atoms.indices
      ensures eqs.atoms.indices[t] in eqs.atoms.vars && eqs.atoms.indices[t].name in eqs.atoms.varnames
    {
    }

    /** The leaf of an atom of a known variable. */
    method LeafOf(a: Atom) returns (res: Option<nat>)
      requires Valid() && InRange(a.ll) && a.name in eqs.atoms.varnames
      requires a.name in eqs.atoms.params || a.name in eqs.atoms.endovars || a.name in eqs.atoms.exovars
      modifies eqs.otree, eqs.atoms`vars, eqs.atoms`indices, eqs.atoms`nv, eqs.atoms`minlag, eqs.atoms`maxlead
      ensures Valid() && eqs.formulas == old(eqs.formulas) && GrowsTo(old(eqs.AsModel()), eqs.AsModel())
      ensures res.Some? && res.value in eqs.AsModel().atoms && eqs.AsModel().atoms[res.value] == a && a in eqs.atoms.vars
      ensures forall b: Atom :: b in eqs.atoms.vars ==> b in old(eqs.atoms.vars) || b == a
      ensures LeafGrowth(old(eqs.AsModel()), eqs.AsModel(), Abs(a.ll))
    {
      hide OperationTree.Shape, Spans, IsModel, DynamicAtoms.Valid, DynamicAtoms.Declared;
      ghost var m := eqs.AsModel();
      res := eqs.AddNulary(a);
      LeafMatches(a);
      ModelConstants(m);
    }

    lemma LeafMatches(a: Atom)
      requires eqs.Valid() && a in eqs.atoms.vars
      ensures eqs.atoms.vars[a] in eqs.AsModel().atoms && eqs.AsModel().atoms[eqs.atoms.vars[a]] == a
    {
    }

    lemma ModelConstants(m: Model)
      requires IsModel(m)
      ensures forall t: nat :: t in m.consts ==> t < |m.terms|
    {
      forall t: nat | t in m.consts
        ensures t < |m.terms|
      {
        assert IsLeaf(m.terms, t);
      }
    }

    /** The leaves of the variables in a set, shifted. */
    method VariableShiftMap(aSet: set<nat>, tshift: int, ghost b: int) returns (sMap: map<nat, nat>)
      requires Valid() && forall l: nat :: l in aSet ==> l < |eqs.otree.terms|
      requires forall l: nat :: l in aSet && l in eqs.atoms.indices ==> InRange(eqs.atoms.indices[l].ll + tshift)
      requires b >= 0 && forall l: nat :: l in aSet && l in eqs.atoms.indices ==> -b <= eqs.atoms.indices[l].ll + tshift <= b
      modifies eqs.otree, eqs.atoms`vars, eqs.atoms`indices, eqs.atoms`nv, eqs.atoms`minlag, eqs.atoms`maxlead
      ensures Valid() && eqs.formulas == old(eqs.formulas) && GrowsTo(old(eqs.AsModel()), eqs.AsModel())
      ensures ShiftMap(eqs.AsModel(), aSet, sMap, tshift) && LeafGrowth(old(eqs.AsModel()), eqs.AsModel(), b)
    {
      hide FormulaParser.Valid, ShiftsLeaf, GrowsTo, IsModel, ConstantsApart, LeafGrowth;
      ghost var m0 := eqs.AsModel();
      GrowsToSelf(m0);
      NoLeafGrowth(m0, m0, b);
      SetLeaves(m0, aSet);
      sMap := map[];
      var rest := aSet;
      while rest != {}
        invariant Valid() && eqs.formulas == old(eqs.formulas) && GrowsTo(m0, eqs.AsModel()) && LeafGrowth(m0, eqs.AsModel(), b)
        invariant rest <= aSet && (forall l: nat :: l in sMap ==> l in aSet && l !in rest)
        invariant forall l: nat :: l in aSet && l !in rest ==> ShiftsLeaf(eqs.AsModel(), sMap, tshift, l)
        decreases |rest|
      {
        var t: nat :| t in rest;
        ghost var m1 := eqs.AsModel();
        OldAtom(m0, m1, t);
        var shifted := VariableShift(t, tshift);
        LeafGrowthMore(m1, eqs.AsModel(), if t in m1.atoms then Abs(m1.atoms[t].ll + tshift) else 0, b);
        LeafGrowthTrans(m0, m1, eqs.AsModel(), b);
        GrowsToTrans(m0, m1, eqs.AsModel());
        ghost var before: map<nat, nat> := sMap;
        if shifted.Some? {
          sMap := sMap[t := shifted.value];
        }
        forall l: nat | l in aSet && l !in rest - {t}
          ensures ShiftsLeaf(eqs.AsModel(), sMap, tshift, l)
        {
          if l == t { NewShift(m1, eqs.AsModel(), sMap, tshift, t); } else { OldShift(m1, eqs.AsModel(), before, sMap, tshift, l); }
        }
        rest := rest - {t};
      }
    }

    lemma SetLeaves(m0: Model, aSet: set<nat>)
      requires m0 == eqs.AsModel()
      ensures forall t: nat :: t in m0.atoms <==> t in eqs.atoms.indices
    {
    }

    /** The term with its variables shifted in time. */
    method ShiftTerm(t: nat, d: int, ghost bound: int) returns (r: nat, ghost m1: Model, ghost sourcemap: map<Operation, nat>, ghost subst: map<nat, nat>)
      requires Valid() && t < |eqs.otree.terms|
      requires SmallLeads(eqs.AsModel(), t, bound) && -bound <= d <= bound <= 0x2000_0000
      modifies eqs.otree, eqs.atoms`vars, eqs.atoms`indices, eqs.atoms`nv, eqs.atoms`minlag, eqs.atoms`maxlead
      ensures Valid() && eqs.formulas == old(eqs.formulas)
      ensures IsModel(m1) && GrowsTo(old(eqs.AsModel()), m1) && m1.formulas == old(eqs.AsModel()).formulas
      ensures eqs.AsModel() == m1.(terms := eqs.otree.terms) && m1.terms <= eqs.otree.terms
      ensures Consed(m1.terms, sourcemap) && Reduced(m1.terms)
      ensures ShiftMap(m1, Leaves(old(eqs.otree.terms), t), subst, d)
      ensures t < |m1.terms| && r < |eqs.otree.terms| && Image(m1.terms, eqs.otree.opmap, subst, t) == Some(r)
      ensures LeafGrowth(old(eqs.AsModel()), eqs.AsModel(), 2 * bound)
    {
      hide *;
      ghost var m0 := eqs.AsModel();
      LeavesInRange(t, d, bound);
      Parts();
      var nult := eqs.otree.nulIncidence[t];
      var sMap := VariableShiftMap(nult, d, 2 * bound);
      subst := sMap;
      m1, sourcemap := eqs.AsModel(), eqs.otree.opmap;
      Parts();
      ShiftMapBelow(m0, m1, nult, subst, d, t);
      r := eqs.AddSubstitution(t, sMap);
      StillValid(m1);
      Parts();
      SubstitutionGrows(m0, m1, eqs.AsModel(), 2 * bound);
    }

    lemma LeavesInRange(t: nat, d: int, bound: int)
      requires Valid() && t < |eqs.otree.terms|
      requires SmallLeads(eqs.AsModel(), t, bound) && -bound <= d <= bound <= 0x2000_0000
      ensures t < |eqs.otree.nulIncidence| && eqs.otree.nulIncidence[t] == Leaves(eqs.otree.terms, t)
      ensures forall l: nat :: l in eqs.otree.nulIncidence[t] ==> l < |eqs.otree.terms|
      ensures forall l: nat :: l in eqs.otree.nulIncidence[t] && l in eqs.atoms.indices ==> InRange(eqs.atoms.indices[l].ll + d)
      ensures forall l: nat :: l in eqs.otree.nulIncidence[t] && l in eqs.atoms.indices ==> -2 * bound <= eqs.atoms.indices[l].ll + d <= 2 * bound
      ensures WellFormed(eqs.otree.terms) && IsModel(eqs.AsModel()) && NamesIn(eqs.AsModel(), eqs.atoms.varnames)
    {
      hide Consed, Reduced, Spans;
      LeavesAreLeaves(eqs.otree.terms, t);
    }

    lemma Parts()
      requires Valid()
      ensures eqs.Valid() && WellFormed(eqs.otree.terms) && Reduced(eqs.otree.terms)
      ensures Consed(eqs.otree.terms, eqs.otree.opmap) && IsModel(eqs.AsModel())
      ensures OneLeafEach(eqs.AsModel()) && NamesIn(eqs.AsModel(), eqs.atoms.varnames)
      ensures Typed(eqs.atoms) && ConstantsApart(eqs.AsModel())
      ensures eqs.AsModel().terms == eqs.otree.terms && eqs.AsModel().formulas == eqs.formulas
    {
      hide Consed, Reduced, Spans, Incident;
    }

    lemma StillValid(m1: Model)
      requires eqs.Valid() && Typed(eqs.atoms) && ConstantsApart(m1) && eqs.AsModel() == m1.(terms := eqs.otree.terms)
      ensures Valid()
    {
      hide Consed, Reduced, Spans, Incident;
    }

    /** Declares a new endogenous variable; fails exactly when the name is taken. */
    method Declare(name: string) returns (ok: bool)
      requires Valid()
      modifies eqs.atoms`varnames, eqs.atoms`endovars
      ensures Valid() && ok == (name !in old(eqs.atoms.varnames)) && eqs.AsModel() == old(eqs.AsModel())
      ensures eqs.atoms.varnames == if ok then old(eqs.atoms.varnames) + {name} else old(eqs.atoms.varnames)
      ensures ok ==> eqs.atoms.endovars == old(eqs.atoms.endovars) + [name]
      ensures ok ==> forall b: Atom :: b in eqs.atoms.vars ==> b.name != name
    {
      hide OperationTree.Shape, Spans, IsModel, Matched;
      ok := eqs.atoms.RegisterUniqEndo(name);
    }

    /** Turns the term t into the leaf of an atom. */
    method SubstituteAtomForTerm(a: Atom, t: nat)
      requires Valid() && NUM_CONSTANTS <= t < |eqs.otree.terms| && !IsConstant(t) && InRange(a.ll)
      requires a !in eqs.atoms.vars && a.name in eqs.atoms.varnames && IsVariableName(a.name)
      modifies eqs.otree, eqs.atoms`vars, eqs.atoms`indices, eqs.atoms`nv, eqs.atoms`minlag, eqs.atoms`maxlead
      ensures Valid() && eqs.AsModel() == WithAtomFor(old(eqs.AsModel()), t, a)
    {
      hide IsModel, OperationTree.Shape, DynamicAtoms.Valid, DynamicAtoms.Declared, Typed, Consed, Reduced, Incident;
      ghost var m := eqs.AsModel();
      TakeAtom(a, t);
      ReplacedModel(m, t, a);
      eqs.otree.Nularify(t);
    }

    /** Gives the tree index t to an atom, taking it from its own atom if it has one. */
    method TakeAtom(a: Atom, t: nat)
      requires Valid() && InRange(a.ll) && a !in eqs.atoms.vars && a.name in eqs.atoms.varnames && IsVariableName(a.name)
      modifies eqs.atoms`vars, eqs.atoms`indices, eqs.atoms`nv, eqs.atoms`minlag, eqs.atoms`maxlead
      ensures eqs.atoms.Valid() && eqs.atoms.Declared() && Typed(eqs.atoms) && eqs.atoms.indices == old(eqs.atoms.indices)[t := a]
    {
      hide OperationTree.Shape, IsModel, Spans, Matched;
      ghost var indices := eqs.atoms.indices;
      if eqs.atoms.IsNamedAtom(t) {
        NamedOnce(t, a);
        var removed := eqs.atoms.UnassignVariable(eqs.atoms.indices[t], t);
      }
      var ok := eqs.atoms.AssignVariable(a, t);
      assert eqs.atoms.indices == indices[t := a];
    }

    lemma NamedOnceMore(a: Atom)
      requires Valid() && a in eqs.atoms.vars
      ensures eqs.atoms.vars[a] in eqs.atoms.indices && eqs.atoms.indices[eqs.atoms.vars[a]] == a
    {
    }

    lemma NamedOnce(t: nat, a: Atom)
      requires Valid() && t in eqs.atoms.indices && a !in eqs.atoms.vars
      ensures eqs.atoms.indices[t] in eqs.atoms.vars && eqs.atoms.vars[eqs.atoms.indices[t]] == t && eqs.atoms.indices[t] != a
    {
    }

    /** The selection that starts at t meets u: on some path down from t, u is the first term the selector accepts. */
    ghost predicate Found(t: nat, u: nat)
      requires Valid() && t < |eqs.otree.terms|
      reads eqs, eqs.otree, eqs.atoms
      decreases t
    {
      assert OperandsBelow(eqs.otree.terms[t], t);
      if NLSelector(t) then u == t
      else
        match eqs.otree.terms[t]
        case Nulary => false
        case Unary(_, a) => Found(a, u)
        case Binary(_, a, b) => Found(a, u) || Found(b, u)
    }

    /** Adds to the set the terms that the selector accepts, without looking below them. */
    method SelectTerms(t: nat, subterms: set<nat>) returns (more: set<nat>)
      requires Valid() && t < |eqs.otree.terms| && Closed(eqs.AsModel(), t)
      ensures forall u: nat :: u in more <==> u in subterms || Found(t, u)
      ensures Covers(eqs.AsModel(), t, more)
      decreases t
    {
      hide Consed, Reduced, Spans, Covers, NLSelector;
      assert OperandsBelow(eqs.otree.terms[t], t);
      if NLSelector(t) {
        more := subterms + {t};
        CoversSelf(eqs.AsModel(), t, more);
      } else {
        match eqs.otree.terms[t]
        case Binary(_, op1, op2) => {
          ClosedBelow(eqs.AsModel(), t);
          var first := SelectTerms(op1, subterms);
          more := SelectTerms(op2, first);
          CoversMore(eqs.AsModel(), op1, first, more);
          CoversAbove(eqs.AsModel(), t, more);
        }
        case Unary(_, op1) => {
          ClosedBelow(eqs.AsModel(), t);
          more := SelectTerms(op1, subterms);
          CoversAbove(eqs.AsModel(), t, more);
        }
        case Nulary => {
          more := subterms;
          NoVariable(t);
          CoversAbove(eqs.AsModel(), t, more);
        }
      }
    }

    /** What is found is a term of t that is met before any other accepted term. */
    lemma {:induction false} FoundMeets(t: nat, u: nat, chosen: set<nat>)
      requires Valid() && t < |eqs.otree.terms| && Found(t, u)
      requires forall v: nat :: v in chosen ==> v < |eqs.otree.terms| && Accepts(v)
      ensures NUM_CONSTANTS <= u <= t && Meets(eqs.otree.terms, t, chosen, u)
      ensures Leaves(eqs.otree.terms, u) <= Leaves(eqs.otree.terms, t) && Reaches(eqs.otree.terms, t, u)
      decreases t
    {
      hide Consed, Reduced, Spans, NLSelector;
      assert OperandsBelow(eqs.otree.terms[t], t);
      if NLSelector(t) {
        AcceptedIsNoConstant(t);
      } else {
        assert t in chosen ==> Accepts(t);
        match eqs.otree.terms[t]
        case Unary(_, a) => FoundMeets(a, u, chosen);
        case Binary(_, a, b) => if Found(a, u) { FoundMeets(a, u, chosen); } else { FoundMeets(b, u, chosen); }
      }
    }

    ghost predicate Accepts(t: nat)
      requires Valid() && t < |eqs.otree.terms|
      reads eqs, eqs.otree, eqs.atoms
    {
      assert OperandsBelow(eqs.otree.terms[t], t);
      NLSelector(t)
    }

    /** All found terms are accepted. */
    lemma {:induction false} FoundAccepted(t: nat, u: nat)
      requires Valid() && t < |eqs.otree.terms| && Found(t, u)
      ensures u <= t && Accepts(u)
      decreases t
    {
      hide Consed, Reduced, Spans, NLSelector;
      assert OperandsBelow(eqs.otree.terms[t], t);
      if !NLSelector(t) {
        match eqs.otree.terms[t]
        case Unary(_, a) => FoundAccepted(a, u);
        case Binary(_, a, b) => if Found(a, u) { FoundAccepted(a, u); } else { FoundAccepted(b, u); }
      }
    }

    /** No leaf of the term is a variable. */
    ghost predicate NoVariables(t: nat)
      requires Valid() && t < |eqs.otree.terms|
      reads eqs, eqs.otree, eqs.atoms
    {
      forall l: nat :: l in Leaves(eqs.otree.terms, t) ==> !IsVariableLeaf(eqs.AsModel(), l)
    }

    lemma ConstantTermIs(t: nat)
      requires Valid() && t < |eqs.otree.terms| && Closed(eqs.AsModel(), t)
      ensures |eqs.otree.nulIncidence| == |eqs.otree.terms| && (IsConstantTerm(t) <==> NoVariables(t))
    {
      hide Consed, Reduced, Spans;
      VariableLeaves(t);
      forall l: nat | l in Leaves(eqs.otree.terms, t)
        ensures IsVariableLeaf(eqs.AsModel(), l) <==> !(IsConstant(l) || (l in eqs.atoms.indices && eqs.atoms.indices[l].name in eqs.atoms.params))
      {
        if l in eqs.atoms.indices { TypedLeaf(l); }
      }
    }

    /** Nothing is found in a term without variables. */
    lemma {:induction false} NothingFound(t: nat, u: nat)
      requires Valid() && t < |eqs.otree.terms| && Closed(eqs.AsModel(), t) && NoVariables(t)
      ensures !Found(t, u)
      decreases t
    {
      hide Consed, Reduced, Spans, Incident;
      assert OperandsBelow(eqs.otree.terms[t], t);
      ConstantTermIs(t);
      ClosedBelow(eqs.AsModel(), t);
      match eqs.otree.terms[t]
      case Nulary =>
      case Unary(_, a) => NothingFound(a, u);
      case Binary(_, a, b) => NothingFound(a, u); NothingFound(b, u);
    }

    /** The operation passes on what is found in its operands: sums, differences, negations, products with a factor without
        variables, and powers with zero or one as base or exponent. */
    ghost predicate PassesOn(t: nat)
      requires Valid() && t < |eqs.otree.terms|
      reads eqs, eqs.otree, eqs.atoms
    {
      assert OperandsBelow(eqs.otree.terms[t], t);
      match eqs.otree.terms[t]
      case Nulary => false
      case Unary(code, _) => code == UMINUS
      case Binary(code, a, b) =>
        || code == PLUS || code == MINUS || (code == TIMES && (NoVariables(a) || NoVariables(b)))
        || (code == POWER && (a == ZERO || a == ONE || b == ZERO || b == ONE))
    }

    /** What is found in a term: nothing without variables, what is found in the operands where the operation passes it on, and
        otherwise the term itself. */
    lemma FoundByOperation(t: nat, u: nat)
      requires Valid() && t < |eqs.otree.terms| && Closed(eqs.AsModel(), t)
      ensures NoVariables(t) ==> !Found(t, u)
      ensures !NoVariables(t) && !PassesOn(t) ==> (Found(t, u) <==> u == t)
      ensures PassesOn(t) && eqs.otree.terms[t].Unary? ==> eqs.otree.terms[t].op1 < t && (Found(t, u) <==> Found(eqs.otree.terms[t].op1, u))
      ensures PassesOn(t) && eqs.otree.terms[t].Binary? ==>
        && eqs.otree.terms[t].op1 < t && eqs.otree.terms[t].op2 < t
        && (Found(t, u) <==> Found(eqs.otree.terms[t].op1, u) || Found(eqs.otree.terms[t].op2, u))
    {
      hide Consed, Reduced, Spans, Incident;
      assert OperandsBelow(eqs.otree.terms[t], t);
      ConstantTermIs(t);
      ClosedBelow(eqs.AsModel(), t);
      match eqs.otree.terms[t]
      case Nulary => OnlyLeaf(t); if NoVariables(t) { NothingFound(t, u); }
      case Unary(_, a) => ConstantTermIs(a); if NoVariables(t) { NothingFound(t, u); NothingFound(a, u); }
      case Binary(_, a, b) =>
        ConstantTermIs(a);
        ConstantTermIs(b);
        if NoVariables(t) { NothingFound(t, u); NothingFound(a, u); NothingFound(b, u); }
    }

    lemma OnlyLeaf(t: nat)
      requires Valid() && t < |eqs.otree.terms| && eqs.otree.terms[t] == Nulary && Closed(eqs.AsModel(), t)
      ensures NoVariables(t) <==> !(t in eqs.atoms.indices && IsVariableName(eqs.atoms.indices[t].name))
    {
      hide Consed, Reduced, Spans;
      if t in eqs.atoms.indices { TypedLeaf(t); }
    }

    /** The value at r balances those at p and q against o: along such points an affine function has no second difference. */
    ghost predicate Balanced(F: Funs, o: Point, p: Point, q: Point, r: Point, t: nat)
      requires WellFormed(eqs.otree.terms) && t < |eqs.otree.terms|
      reads eqs, eqs.otree
    {
      var terms := eqs.otree.terms;
      var vo, vp, vq, vr := Eval(F, terms, o, t).x, Eval(F, terms, p, t).x, Eval(F, terms, q, t).x, Eval(F, terms, r, t).x;
      vo.Some? && vp.Some? && vq.Some? && vr.Some? ==> vr.value + vo.value == vp.value + vq.value
    }

    /** The points give constants and parameters the same values. */
    ghost predicate SameConstants(F: Funs, p: Point, q: Point)
      reads eqs, eqs.otree, eqs.atoms
    {
      forall l: nat :: !IsVariableLeaf(eqs.AsModel(), l) ==> LeafJet(F, p, l).x == LeafJet(F, q, l).x
    }

    lemma {:induction false} SameWithoutVariables(F: Funs, p: Point, q: Point, t: nat)
      requires Valid() && t < |eqs.otree.terms| && NoVariables(t) && SameConstants(F, p, q)
      ensures Eval(F, eqs.otree.terms, p, t).x == Eval(F, eqs.otree.terms, q, t).x
      decreases t
    {
      hide Consed, Reduced, Spans, Incident;
      assert OperandsBelow(eqs.otree.terms[t], t);
      match eqs.otree.terms[t]
      case Nulary =>
      case Unary(_, a) => SameWithoutVariables(F, p, q, a);
      case Binary(_, a, b) => SameWithoutVariables(F, p, q, a); SameWithoutVariables(F, p, q, b);
    }

    /** Every term is affine in what is found in it: points that only differ in variables and along which every found term is
        balanced balance the term as well. */
    lemma {:induction false} AffineInFound(F: Funs, o: Point, p: Point, q: Point, r: Point, t: nat)
      requires Valid() && t < |eqs.otree.terms| && Closed(eqs.AsModel(), t) && Lawful(F)
      requires SameConstants(F, o, p) && SameConstants(F, o, q) && SameConstants(F, o, r)
      requires forall u: nat :: u < |eqs.otree.terms| && Found(t, u) ==> Balanced(F, o, p, q, r, u)
      ensures Balanced(F, o, p, q, r, t)
      decreases t
    {
      hide Consed, Reduced, Spans, Incident;
      assert OperandsBelow(eqs.otree.terms[t], t);
      ClosedBelow(eqs.AsModel(), t);
      forall u: nat
        ensures NoVariables(t) || PassesOn(t) || (Found(t, u) <==> u == t)
      {
        FoundByOperation(t, u);
      }
      if NoVariables(t) {
        BalancedWithoutVariables(F, o, p, q, r, t);
      } else if PassesOn(t) {
        AffineBelow(F, o, p, q, r, t);
        match eqs.otree.terms[t]
        case Unary(_, a) =>
          AffineInFound(F, o, p, q, r, a);
          BalancedUnary(F, o, p, q, r, t);
        case Binary(_, a, b) =>
          AffineInFound(F, o, p, q, r, a);
          AffineInFound(F, o, p, q, r, b);
          BalancedBinary(F, o, p, q, r, t);
      }
    }

    lemma AffineBelow(F: Funs, o: Point, p: Point, q: Point, r: Point, t: nat)
      requires Valid() && t < |eqs.otree.terms| && Closed(eqs.AsModel(), t) && PassesOn(t)
      requires forall u: nat :: u < |eqs.otree.terms| && Found(t, u) ==> Balanced(F, o, p, q, r, u)
      ensures OperandsBelow(eqs.otree.terms[t], t)
      ensures match eqs.otree.terms[t]
        case Nulary => true
        case Unary(_, a) => forall u: nat :: u < |eqs.otree.terms| && Found(a, u) ==> Balanced(F, o, p, q, r, u)
        case Binary(_, a, b) => forall u: nat :: u < |eqs.otree.terms| && (Found(a, u) || Found(b, u)) ==> Balanced(F, o, p, q, r, u)
    {
      hide Consed, Reduced, Spans, Incident, Found, PassesOn, Balanced;
      assert OperandsBelow(eqs.otree.terms[t], t);
      forall u: nat
        ensures eqs.otree.terms[t].Unary? ==> (Found(t, u) <==> Found(eqs.otree.terms[t].op1, u))
        ensures eqs.otree.terms[t].Binary? ==> (Found(t, u) <==> Found(eqs.otree.terms[t].op1, u) || Found(eqs.otree.terms[t].op2, u))
      {
        FoundByOperation(t, u);
      }
    }

    lemma BalancedWithoutVariables(F: Funs, o: Point, p: Point, q: Point, r: Point, t: nat)
      requires Valid() && t < |eqs.otree.terms| && NoVariables(t)
      requires SameConstants(F, o, p) && SameConstants(F, o, q) && SameConstants(F, o, r)
      ensures Balanced(F, o, p, q, r, t)
    {
      Parts();
      hide *;
      SameFactor(F, o, p, q, r, t);
      Flat(F, o, p, q, r, t);
    }

    lemma Flat(F: Funs, o: Point, p: Point, q: Point, r: Point, t: nat)
      requires WellFormed(eqs.otree.terms) && t < |eqs.otree.terms|
      requires Eval(F, eqs.otree.terms, o, t).x == Eval(F, eqs.otree.terms, p, t).x == Eval(F, eqs.otree.terms, q, t).x == Eval(F, eqs.otree.terms, r, t).x
      ensures Balanced(F, o, p, q, r, t)
    {
    }

    lemma BalancedUnary(F: Funs, o: Point, p: Point, q: Point, r: Point, t: nat)
      requires Valid() && t < |eqs.otree.terms| && PassesOn(t) && eqs.otree.terms[t].Unary? && eqs.otree.terms[t].op1 < t
      requires Balanced(F, o, p, q, r, eqs.otree.terms[t].op1)
      ensures Balanced(F, o, p, q, r, t)
    {
      hide Consed, Reduced, Spans, Incident;
    }

    lemma BalancedBinary(F: Funs, o: Point, p: Point, q: Point, r: Point, t: nat)
      requires Valid() && t < |eqs.otree.terms| && PassesOn(t) && eqs.otree.terms[t].Binary? && Lawful(F)
      requires SameConstants(F, o, p) && SameConstants(F, o, q) && SameConstants(F, o, r)
      requires eqs.otree.terms[t].op1 < t && eqs.otree.terms[t].op2 < t
      requires Balanced(F, o, p, q, r, eqs.otree.terms[t].op1) && Balanced(F, o, p, q, r, eqs.otree.terms[t].op2)
      ensures Balanced(F, o, p, q, r, t)
    {
      hide Consed, Reduced, Spans, Incident, SameConstants, Mul;
      var c, a, b := eqs.otree.terms[t].bcode, eqs.otree.terms[t].op1, eqs.otree.terms[t].op2;
      if c == TIMES {
        if NoVariables(a) {
          SameFactor(F, o, p, q, r, a);
        } else {
          SameFactor(F, o, p, q, r, b);
        }
        BalancedProduct(F, o, p, q, r, t);
      } else if c == POWER {
        BalancedPower(F, o, p, q, r, t);
      }
    }

    lemma SameFactor(F: Funs, o: Point, p: Point, q: Point, r: Point, t: nat)
      requires Valid() && t < |eqs.otree.terms| && NoVariables(t)
      requires SameConstants(F, o, p) && SameConstants(F, o, q) && SameConstants(F, o, r)
      ensures WellFormed(eqs.otree.terms)
      ensures Eval(F, eqs.otree.terms, o, t).x == Eval(F, eqs.otree.terms, p, t).x == Eval(F, eqs.otree.terms, q, t).x == Eval(F, eqs.otree.terms, r, t).x
    {
      Parts();
      hide *;
      SameWithoutVariables(F, o, p, t);
      SameWithoutVariables(F, o, q, t);
      SameWithoutVariables(F, o, r, t);
    }

    lemma BalancedProduct(F: Funs, o: Point, p: Point, q: Point, r: Point, t: nat)
      requires WellFormed(eqs.otree.terms) && t < |eqs.otree.terms| && eqs.otree.terms[t].Binary? && eqs.otree.terms[t].bcode == TIMES
      requires eqs.otree.terms[t].op1 < t && eqs.otree.terms[t].op2 < t
      requires Balanced(F, o, p, q, r, eqs.otree.terms[t].op1) && Balanced(F, o, p, q, r, eqs.otree.terms[t].op2)
      requires var terms, a, b := eqs.otree.terms, eqs.otree.terms[t].op1, eqs.otree.terms[t].op2;
        || Eval(F, terms, o, a).x == Eval(F, terms, p, a).x == Eval(F, terms, q, a).x == Eval(F, terms, r, a).x
        || Eval(F, terms, o, b).x == Eval(F, terms, p, b).x == Eval(F, terms, q, b).x == Eval(F, terms, r, b).x
      ensures Balanced(F, o, p, q, r, t)
    {
      var terms, a, b := eqs.otree.terms, eqs.otree.terms[t].op1, eqs.otree.terms[t].op2;
      var ao, ap, aq, ar := Eval(F, terms, o, a).x, Eval(F, terms, p, a).x, Eval(F, terms, q, a).x, Eval(F, terms, r, a).x;
      var bo, bp, bq, br := Eval(F, terms, o, b).x, Eval(F, terms, p, b).x, Eval(F, terms, q, b).x, Eval(F, terms, r, b).x;
      hide Mul;
      if ao.Some? && ap.Some? && aq.Some? && ar.Some? && bo.Some? && bp.Some? && bq.Some? && br.Some? {
        ProductBalances(ao.value, ap.value, aq.value, ar.value, bo.value, bp.value, bq.value, br.value);
      }
    }

    lemma BalancedPower(F: Funs, o: Point, p: Point, q: Point, r: Point, t: nat)
      requires Lawful(F) && WellFormed(eqs.otree.terms) && t < |eqs.otree.terms| && eqs.otree.terms[t].Binary? && eqs.otree.terms[t].bcode == POWER
      requires eqs.otree.terms[t].op1 < t && eqs.otree.terms[t].op2 < t
      requires eqs.otree.terms[t].op1 == ZERO || eqs.otree.terms[t].op1 == ONE || eqs.otree.terms[t].op2 == ZERO || eqs.otree.terms[t].op2 == ONE
      requires Balanced(F, o, p, q, r, eqs.otree.terms[t].op1)
      ensures Balanced(F, o, p, q, r, t)
    {
      var terms, a, b := eqs.otree.terms, eqs.otree.terms[t].op1, eqs.otree.terms[t].op2;
      PowerAt(F, o, t);
      PowerAt(F, p, t);
      PowerAt(F, q, t);
      PowerAt(F, r, t);
    }

    /** A power with zero or one as base or exponent is one or its base, wherever it is defined. */
    lemma PowerAt(F: Funs, p: Point, t: nat)
      requires Lawful(F) && WellFormed(eqs.otree.terms) && t < |eqs.otree.terms| && eqs.otree.terms[t].Binary? && eqs.otree.terms[t].bcode == POWER
      requires eqs.otree.terms[t].op1 < t && eqs.otree.terms[t].op2 < t
      requires eqs.otree.terms[t].op1 == ZERO || eqs.otree.terms[t].op1 == ONE || eqs.otree.terms[t].op2 == ZERO || eqs.otree.terms[t].op2 == ONE
      ensures Eval(F, eqs.otree.terms, p, t).x.Some? ==> eqs.otree.terms[t].op1 != ZERO
      ensures Eval(F, eqs.otree.terms, p, t).x.Some? ==>
        Eval(F, eqs.otree.terms, p, t).x == if eqs.otree.terms[t].op1 == ONE || eqs.otree.terms[t].op2 == ZERO then Some(1.0)
                                           else Eval(F, eqs.otree.terms, p, eqs.otree.terms[t].op1).x
    {
      var terms, a, b := eqs.otree.terms, eqs.otree.terms[t].op1, eqs.otree.terms[t].op2;
      assert Eval(F, terms, p, ZERO).x == Some(0.0) && Eval(F, terms, p, ONE).x == Some(1.0);
      assert Eval(F, terms, p, t).x.Some? ==> Eval(F, terms, p, t).x == BinaryValue(F, POWER, Eval(F, terms, p, a).x.value, Eval(F, terms, p, b).x.value);
    }

    lemma AcceptedIsNoConstant(t: nat)
      requires Valid() && t < |eqs.otree.terms| && Accepts(t)
      ensures NUM_CONSTANTS <= t
    {
      hide Consed, Reduced, Spans;
      assert eqs.otree.nulIncidence[t] == Leaves(eqs.otree.terms, t);
      assert eqs.otree.terms[t] == Nulary ==> Leaves(eqs.otree.terms, t) == {t};
    }

    lemma NoVariable(t: nat)
      requires Valid() && t < |eqs.otree.terms| && OperandsBelow(eqs.otree.terms[t], t) && !NLSelector(t) && eqs.otree.terms[t] == Nulary
      ensures !IsVariableLeaf(eqs.AsModel(), t)
    {
      hide Consed, Reduced;
      assert eqs.otree.nulIncidence[t] == Leaves(eqs.otree.terms, t) == {t};
      if t in eqs.atoms.indices {
        TypedLeaf(t);
      }
    }
  }

  lemma ProductBalances(ao: real, ap: real, aq: real, ar: real, bo: real, bp: real, bq: real, br: real)
    requires ar + ao == ap + aq && br + bo == bp + bq && (ao == ap == aq == ar || bo == bp == bq == br)
    ensures Mul(ar, br) + Mul(ao, bo) == Mul(ap, bp) + Mul(aq, bq)
  {
    hide Mul;
    if ao == ap == aq == ar {
      MulDistributes(ao, br, bo);
      MulDistributes(ao, bp, bq);
    } else {
      MulDistributes(bo, ar, ao);
      MulDistributes(bo, ap, aq);
    }
  }

  /** Every atom belongs to a parameter or a variable. */
  ghost predicate Typed(atoms: DynamicAtoms)
    reads atoms
  {
    forall a: Atom :: a in atoms.vars ==> a.name in atoms.params || a.name in atoms.endovars || a.name in atoms.exovars
  }

  ghost predicate ConstantsApart(m: Model) {
    forall t: nat :: t in m.consts ==> t !in m.atoms
  }

  function Shifted(a: Atom, d: int): Atom {
    Atom(a.name, a.ll + d)
  }

  lemma ShiftMapBelow(m0: Model, m1: Model, leaves: set<nat>, subst: map<nat, nat>, d: int, t: nat)
    requires IsModel(m1) && GrowsTo(m0, m1) && ShiftMap(m1, leaves, subst, d) && t < |m0.terms|
    ensures t < |m1.terms| && forall k: nat :: k in subst ==> subst[k] < |m1.terms|
  {
    forall k: nat | k in subst
      ensures subst[k] < |m1.terms|
    {
      assert ShiftsLeaf(m1, subst, d, k);
      assert IsLeaf(m1.terms, subst[k]);
    }
  }

  /** The leads are small enough to be shifted against each other. */
  ghost predicate SmallLeads(m: Model, t: nat, bound: int)
    requires IsModel(m) && t < |m.terms|
  {
    forall l: nat :: l in Leaves(m.terms, t) && l in m.atoms ==> -bound <= m.atoms[l].ll <= bound
  }

  lemma SubstitutionGrows(m0: Model, m1: Model, m2: Model, b: int)
    requires GrowsTo(m0, m1) && LeafGrowth(m0, m1, b) && m2 == m1.(terms := m2.terms) && m1.terms <= m2.terms
    requires NoNewLeaves(m1.terms, m2.terms)
    ensures LeafGrowth(m0, m2, b)
  {
    assert GrowsTo(m1, m2);
    NoLeafGrowth(m1, m2, b);
    LeafGrowthTrans(m0, m1, m2, b);
  }

  /** All leaves have atoms or are constants, and the leads are small. */
  ghost predicate AllNamed(m: Model, bound: int) {
    && IsModel(m)
    && (forall l: nat :: l < |m.terms| && m.terms[l] == Nulary ==> IsConstantLeaf(m, l) || l in m.atoms)
    && (forall l: nat :: l in m.atoms ==> -bound <= m.atoms[l].ll <= bound)
  }

  lemma StillNamed(m: Model, m': Model, bound: int)
    requires AllNamed(m, bound) && IsModel(m') && GrowsTo(m, m') && LeafGrowth(m, m', bound)
    ensures AllNamed(m', bound)
  {
    forall l: nat | l < |m'.terms| && m'.terms[l] == Nulary
      ensures IsConstantLeaf(m', l) || l in m'.atoms
    {
      if l < |m.terms| { assert m.terms[l] == m'.terms[l]; }
    }
    forall l: nat | l in m'.atoms
      ensures -bound <= m'.atoms[l].ll <= bound
    {
      assert IsLeaf(m'.terms, l);
    }
  }

  lemma GrowsToSelf(m: Model)
    ensures GrowsTo(m, m)
  {
  }

  /** A leaf that has an atom after growth had it before, or is new. */
  lemma OldAtom(m0: Model, m1: Model, t: nat)
    requires GrowsTo(m0, m1)
    ensures t in m0.atoms ==> t in m1.atoms && m1.atoms[t] == m0.atoms[t]
    ensures t in m1.atoms && t !in m0.atoms ==> t >= |m0.terms|
    ensures |m0.terms| <= |m1.terms|
  {
  }

  lemma NewShift(m1: Model, m2: Model, sMap: map<nat, nat>, d: int, t: nat)
    requires GrowsTo(m1, m2) && (t in sMap <==> IsVariableLeaf(m1, t)) && t < |m1.terms|
    requires t in sMap ==> sMap[t] in m2.atoms && m2.atoms[sMap[t]] == Shifted(m1.atoms[t], d)
    ensures ShiftsLeaf(m2, sMap, d, t)
  {
  }

  lemma OldShift(m1: Model, m2: Model, before: map<nat, nat>, sMap: map<nat, nat>, d: int, l: nat)
    requires GrowsTo(m1, m2) && ShiftsLeaf(m1, before, d, l) && l < |m1.terms|
    requires l in before <==> l in sMap
    requires l in before ==> sMap[l] == before[l]
    ensures ShiftsLeaf(m2, sMap, d, l)
  {
  }

  lemma ClosedBelow(m: Model, t: nat)
    requires IsModel(m) && t < |m.terms| && Closed(m, t)
    ensures !m.terms[t].Nulary? ==> m.terms[t].op1 < t && Closed(m, m.terms[t].op1)
    ensures m.terms[t].Binary? ==> m.terms[t].op2 < t && Closed(m, m.terms[t].op2)
  {
    assert OperandsBelow(m.terms[t], t);
  }

  lemma CoversSelf(m: Model, t: nat, chosen: set<nat>)
    requires IsModel(m) && t < |m.terms| && t in chosen
    ensures Covers(m, t, chosen)
  {
  }

  lemma CoversAbove(m: Model, t: nat, chosen: set<nat>)
    requires IsModel(m) && t < |m.terms| && OperandsBelow(m.terms[t], t)
    requires m.terms[t].Nulary? ==> !IsVariableLeaf(m, t)
    requires !m.terms[t].Nulary? ==> Covers(m, m.terms[t].op1, chosen)
    requires m.terms[t].Binary? ==> Covers(m, m.terms[t].op2, chosen)
    ensures Covers(m, t, chosen)
  {
  }
}
