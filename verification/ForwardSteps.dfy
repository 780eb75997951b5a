/** The states of a model while terms with large leads are replaced. */
module ForwardSteps {
  import opened Wrappers
  import opened Jets
  import opened Terms
  import opened OperationTrees
  import opened DynamicAtomsModule
  import opened ModelMeaning
  import opened ModelSteps
  import opened ForwardMeaning
  import opened DynareModels

  /** The term has become the leaf of a variable one period ahead. */
  predicate Became(m: Model, t: nat) {
    t < |m.terms| && m.terms[t] == Nulary && IsVariableLeaf(m, t) && m.atoms[t].ll == 1
  }

  /** Nothing has happened to the old term but that terms of the set have become leaves. */
  ghost predicate LaterAt(m0: Model, m1: Model, replaced: set<nat>, n: nat)
    requires n < |m0.terms| <= |m1.terms|
  {
    (n in replaced && Became(m1, n)) ||
    (m1.terms[n] == m0.terms[n] && (n in m1.atoms <==> n in m0.atoms) && (n in m0.atoms ==> m1.atoms[n] == m0.atoms[n]))
  }

  ghost predicate Later(m0: Model, m1: Model, replaced: set<nat>) {
    && |m0.terms| <= |m1.terms| && m1.consts == m0.consts && m1.params == m0.params
    && m0.formulas <= m1.formulas
    && forall n: nat :: n < |m0.terms| ==> LaterAt(m0, m1, replaced, n)
  }

  lemma LaterSelf(m: Model)
    ensures Later(m, m, {})
  {
  }

  lemma LaterGrows(m0: Model, m1: Model)
    requires GrowsTo(m0, m1)
    ensures Later(m0, m1, {})
  {
  }

  lemma LaterTrans(m0: Model, m1: Model, m2: Model, r: set<nat>, q: set<nat>)
    requires Later(m0, m1, r) && Later(m1, m2, q)
    ensures Later(m0, m2, r + q)
  {
    forall n: nat | n < |m0.terms|
      ensures LaterAt(m0, m2, r + q, n)
    {
      assert LaterAt(m0, m1, r, n) && LaterAt(m1, m2, q, n);
    }
  }

  lemma LaterReplaced(m: Model, t: nat, a: Atom)
    requires t < |m.terms| && a.ll == 1 && a.name !in m.params
    ensures Later(m, WithAtomFor(m, t, a), {t})
  {
    var m' := WithAtomFor(m, t, a);
    forall n: nat | n < |m.terms|
      ensures LaterAt(m, m', {t}, n)
    {
    }
  }

  /** The leaves of an old term are old leaves of it, or terms that have become leaves. */
  lemma {:induction false} LaterLeaves(m0: Model, m1: Model, replaced: set<nat>, n: nat, l: nat)
    requires IsModel(m0) && IsModel(m1) && Later(m0, m1, replaced) && n < |m0.terms| && l in Leaves(m1.terms, n)
    ensures l < |m0.terms| && (Became(m1, l) || (l in Leaves(m0.terms, n) && m1.terms[l] == m0.terms[l]
      && (l in m1.atoms <==> l in m0.atoms) && (l in m0.atoms ==> m1.atoms[l] == m0.atoms[l])))
    decreases n
  {
    assert LaterAt(m0, m1, replaced, n);
    assert OperandsBelow(m0.terms[n], n) && OperandsBelow(m1.terms[n], n);
    if m1.terms[n] == m0.terms[n] {
      match m0.terms[n]
      case Nulary =>
      case Unary(_, a) => LaterLeaves(m0, m1, replaced, a, l);
      case Binary(_, a, b) => if l in Leaves(m1.terms, a) { LaterLeaves(m0, m1, replaced, a, l); } else { LaterLeaves(m0, m1, replaced, b, l); }
    }
  }

  lemma LaterLeads(m0: Model, m1: Model, replaced: set<nat>, n: nat, ll: int)
    requires IsModel(m0) && IsModel(m1) && Later(m0, m1, replaced) && n < |m0.terms| && LeadsUpTo(m0, n, ll) && ll >= 1
    ensures LeadsUpTo(m1, n, ll)
  {
    forall l: nat | l in Leaves(m1.terms, n) && IsVariableLeaf(m1, l)
      ensures m1.atoms[l].ll <= ll
    {
      LaterLeaves(m0, m1, replaced, n, l);
    }
  }

  lemma LaterClosed(m0: Model, m1: Model, replaced: set<nat>, n: nat)
    requires IsModel(m0) && IsModel(m1) && Later(m0, m1, replaced) && n < |m0.terms| && Closed(m0, n)
    ensures Closed(m1, n)
  {
    forall l: nat | l in Leaves(m1.terms, n)
      ensures IsConstantLeaf(m1, l) || l in m1.atoms
    {
      LaterLeaves(m0, m1, replaced, n, l);
    }
  }

  lemma LaterSmall(m0: Model, m1: Model, replaced: set<nat>, n: nat, bound: int)
    requires IsModel(m0) && IsModel(m1) && Later(m0, m1, replaced) && n < |m0.terms| && SmallLeads(m0, n, bound) && bound >= 1
    ensures SmallLeads(m1, n, bound)
  {
    forall l: nat | l in Leaves(m1.terms, n) && l in m1.atoms
      ensures -bound <= m1.atoms[l].ll <= bound
    {
      LaterLeaves(m0, m1, replaced, n, l);
    }
  }

  lemma {:induction false} LaterCovers(m0: Model, m1: Model, replaced: set<nat>, n: nat, chosen: set<nat>)
    requires IsModel(m0) && IsModel(m1) && Later(m0, m1, replaced) && n < |m0.terms| && Covers(m0, n, chosen) && replaced <= chosen
    ensures Covers(m1, n, chosen)
    decreases n
  {
    assert LaterAt(m0, m1, replaced, n);
    assert OperandsBelow(m0.terms[n], n) && OperandsBelow(m1.terms[n], n);
    if n !in chosen {
      match m0.terms[n]
      case Nulary =>
      case Unary(_, a) => LaterCovers(m0, m1, replaced, a, chosen);
      case Binary(_, a, b) => LaterCovers(m0, m1, replaced, a, chosen); LaterCovers(m0, m1, replaced, b, chosen);
    }
  }

  lemma {:induction false} LaterMeets(m0: Model, m1: Model, replaced: set<nat>, n: nat, chosen: set<nat>, u: nat)
    requires IsModel(m0) && IsModel(m1) && Later(m0, m1, replaced) && n < |m0.terms| && Meets(m0.terms, n, chosen, u) && replaced <= chosen
    ensures Meets(m1.terms, n, chosen, u)
    decreases n
  {
    assert LaterAt(m0, m1, replaced, n);
    assert OperandsBelow(m0.terms[n], n) && OperandsBelow(m1.terms[n], n);
    if n != u {
      match m0.terms[n]
      case Unary(_, a) => LaterMeets(m0, m1, replaced, a, chosen, u);
      case Binary(_, a, b) =>
        if Meets(m0.terms, a, chosen, u) { LaterMeets(m0, m1, replaced, a, chosen, u); } else { LaterMeets(m0, m1, replaced, b, chosen, u); }
    }
  }

  // ----- the chain for one term -----

  /** The chain for term t has been built as far as defs. */
  ghost predicate InChain(m0: Model, names0: set<string>, m: Model, names: set<string>, t: nat, lagt: nat, mlead: int, defs: seq<Def>) {
    && Chain(m0, m, lagt, defs) && FreshChain(m0, names0, defs)
    && NamesIn(m0, names0) && names == names0 + ChainNames(defs)
    && t < |m0.terms| && ShiftsExactly(m, t, lagt, 1 - mlead)
    && ReadsNames(m, names0, lagt) && LeadsUpTo(m, lagt, 1)
    && NewLeadsShort(m0, m)
  }

  /** The added equations lead by at most one. */
  ghost predicate NewLeadsShort(m0: Model, m: Model)
    requires IsModel(m)
  {
    forall i: nat :: |m0.formulas| <= i < |m.formulas| ==> LeadsUpTo(m, m.formulas[i], 1)
  }

  lemma GrownLeads(m: Model, m': Model, n: nat, ll: int)
    requires IsModel(m) && IsModel(m') && GrowsTo(m, m') && n < |m.terms| && LeadsUpTo(m, n, ll)
    ensures LeadsUpTo(m', n, ll)
  {
    LeavesGrow(m.terms, m'.terms, n);
    LeavesAreLeaves(m.terms, n);
  }

  lemma GrownReads(m: Model, m': Model, names: set<string>, n: nat)
    requires IsModel(m) && IsModel(m') && GrowsTo(m, m') && n < |m.terms| && ReadsNames(m, names, n)
    ensures ReadsNames(m', names, n)
  {
    LeavesGrow(m.terms, m'.terms, n);
    LeavesAreLeaves(m.terms, n);
  }

  lemma GrownShifts(m: Model, m': Model, t: nat, lagt: nat, d: int)
    requires IsModel(m) && IsModel(m') && GrowsTo(m, m') && t < |m.terms| && lagt < |m.terms| && ShiftsExactly(m, t, lagt, d)
    ensures ShiftsExactly(m', t, lagt, d)
  {
    hide TermValue;
    forall F: Funs, path: Path, s: int
      ensures ShiftedAt(F, m', t, lagt, d, path, s)
    {
      assert ShiftedAt(F, m, t, lagt, d, path, s);
      GrownValue(F, m, m', path, s, lagt);
      GrownValue(F, m, m', path, s + d, t);
    }
  }

  lemma GrownDef(m: Model, m': Model, d: Def, f: nat)
    requires GrowsTo(m, m') && IsDef(m, d, f)
    ensures IsDef(m', d, f)
  {
  }

  /** The leaves of a stored difference. */
  lemma DifferenceLeaves(terms: seq<Operation>, a: nat, e: nat, f: nat)
    requires WellFormed(terms) && a < |terms| && e < |terms| && StoredAs(terms, MINUS, a, e, f)
    ensures Leaves(terms, f) <= Leaves(terms, a) + Leaves(terms, e) + {NAN}
  {
    if QuickBinary(MINUS, a, e) == None {
      assert OperandsBelow(terms[f], f);
    }
  }

  /** An auxiliary equation leads by at most one when its term does. */
  lemma DefLeads(m: Model, d: Def, f: nat)
    requires IsModel(m) && IsDef(m, d, f) && LeadsUpTo(m, d.def, 1)
    ensures f < |m.terms| && LeadsUpTo(m, f, 1)
  {
    DifferenceLeaves(m.terms, d.aux, d.def, f);
    assert IsLeaf(m.terms, d.aux);
    assert !IsLeaf(m.terms, NAN);
  }

  lemma LeafLeads(m: Model, l: nat)
    requires IsModel(m) && l in m.atoms && m.atoms[l].ll <= 1
    ensures l < |m.terms| && LeadsUpTo(m, l, 1)
  {
    assert IsLeaf(m.terms, l);
  }

  lemma ChainMore(m0: Model, m: Model, lagt: nat, defs: seq<Def>, m': Model, d: Def, f: nat)
    requires Chain(m0, m, lagt, defs) && IsModel(m') && GrowsTo(m, m') && m'.formulas == m.formulas + [f]
    requires IsDef(m', d, f) && LinksTo(m', lagt, defs + [d], |defs|)
    ensures Chain(m0, m', lagt, defs + [d])
  {
    hide IsModel, IsDef;
    GrowsToTrans(m0, m, m');
    var more := defs + [d];
    forall k: nat | k < |more|
      ensures IsDef(m', more[k], m'.formulas[|m0.formulas| + k]) && LinksTo(m', lagt, more, k)
    {
      if k < |defs| {
        GrownDef(m, m', defs[k], m.formulas[|m0.formulas| + k]);
        assert m'.formulas[|m0.formulas| + k] == m.formulas[|m0.formulas| + k];
        assert LinksTo(m, lagt, defs, k);
      }
    }
  }

  lemma FreshMore(m0: Model, names0: set<string>, defs: seq<Def>, d: Def, names: set<string>)
    requires FreshChain(m0, names0, defs) && names == names0 + ChainNames(defs) && d.name !in names && d.name !in m0.params
    ensures FreshChain(m0, names0, defs + [d]) && names + {d.name} == names0 + ChainNames(defs + [d])
  {
    var more := defs + [d];
    forall k: nat | k < |defs|
      ensures defs[k].name != d.name
    {
      assert defs[k].name in ChainNames(defs);
    }
    forall n: string
      ensures n in ChainNames(more) <==> n in ChainNames(defs) || n == d.name
    {
      if n in ChainNames(defs) {
        var k: nat :| k < |defs| && defs[k].name == n;
        assert more[k].name == n;
      }
      assert more[|defs|].name == d.name;
    }
  }

  lemma InChainMore(m0: Model, names0: set<string>, m: Model, names: set<string>, t: nat, lagt: nat, mlead: int, defs: seq<Def>,
                    m': Model, d: Def, f: nat)
    requires InChain(m0, names0, m, names, t, lagt, mlead, defs) && IsModel(m') && GrowsTo(m, m') && m'.formulas == m.formulas + [f]
    requires IsDef(m', d, f) && LinksTo(m', lagt, defs + [d], |defs|) && d.name !in names && d.name !in m0.params
    ensures InChain(m0, names0, m', names + {d.name}, t, lagt, mlead, defs + [d])
  {
    hide Chain, FreshChain, NamesIn, ShiftsExactly, ReadsNames, LeadsUpTo, IsDef, IsModel, GrowsTo, ChainNames;
    ChainModels(m0, m, lagt, defs);
    GrownSizes(m0, m);
    GrownSizes(m, m');
    ChainMore(m0, m, lagt, defs, m', d, f);
    FreshMore(m0, names0, defs, d, names);
    GrownShifts(m, m', t, lagt, 1 - mlead);
    GrownReads(m, m', names0, lagt);
    GrownLeads(m, m', lagt, 1);
    NewDefLeads(m', lagt, defs, d, f);
    NewLeadsMore(m0, m, m', f);
  }

  lemma GrownSizes(m0: Model, m: Model)
    requires GrowsTo(m0, m)
    ensures |m0.terms| <= |m.terms| && |m0.formulas| <= |m.formulas| && m.params == m0.params
  {
  }

  lemma NewDefLeads(m': Model, lagt: nat, defs: seq<Def>, d: Def, f: nat)
    requires IsModel(m') && IsDef(m', d, f) && LinksTo(m', lagt, defs + [d], |defs|) && lagt < |m'.terms| && LeadsUpTo(m', lagt, 1)
    ensures f < |m'.terms| && LeadsUpTo(m', f, 1)
  {
    if |defs| > 0 { LeafLeads(m', d.def); }
    DefLeads(m', d, f);
  }

  lemma NewLeadsMore(m0: Model, m: Model, m': Model, f: nat)
    requires IsModel(m) && IsModel(m') && GrowsTo(m, m') && NewLeadsShort(m0, m) && m'.formulas == m.formulas + [f]
    requires f < |m'.terms| && LeadsUpTo(m', f, 1)
    ensures NewLeadsShort(m0, m')
  {
    forall i: nat | |m0.formulas| <= i < |m'.formulas|
      ensures LeadsUpTo(m', m'.formulas[i], 1)
    {
      if i < |m.formulas| { GrownLeads(m, m', m.formulas[i], 1); }
    }
  }

  lemma SameLeadsShort(m0: Model, m: Model, m': Model)
    requires IsModel(m) && IsModel(m') && GrowsTo(m, m') && NewLeadsShort(m0, m) && m'.formulas == m.formulas
    ensures NewLeadsShort(m0, m')
  {
    forall i: nat | |m0.formulas| <= i < |m'.formulas|
      ensures LeadsUpTo(m', m'.formulas[i], 1)
    {
      GrownLeads(m, m', m.formulas[i], 1);
    }
  }

  /** Adding leaves or terms without equations. */
  lemma InChainGrown(m0: Model, names0: set<string>, m: Model, names: set<string>, t: nat, lagt: nat, mlead: int, defs: seq<Def>, m': Model)
    requires InChain(m0, names0, m, names, t, lagt, mlead, defs) && IsModel(m') && GrowsTo(m, m') && m'.formulas == m.formulas
    ensures InChain(m0, names0, m', names, t, lagt, mlead, defs)
  {
    hide FreshChain, NamesIn, ShiftsExactly, ReadsNames, LeadsUpTo, IsModel, ChainNames, IsDef;
    GrownShifts(m, m', t, lagt, 1 - mlead);
    GrownReads(m, m', names0, lagt);
    GrownLeads(m, m', lagt, 1);
    SameLeadsShort(m0, m, m');
    GrowsToTrans(m0, m, m');
    forall k: nat | k < |defs|
      ensures IsDef(m', defs[k], m'.formulas[|m0.formulas| + k]) && LinksTo(m', lagt, defs, k)
    {
      GrownDef(m, m', defs[k], m.formulas[|m0.formulas| + k]);
      assert LinksTo(m, lagt, defs, k);
    }
  }

  // ----- the end of the chain -----

  /** An equation that leads by at most one is not built from a term that leads by more. */
  lemma ShortAvoids(m0: Model, m: Model, t: nat)
    requires IsModel(m) && t < |m.terms| && NewLeadsShort(m0, m) && !LeadsUpTo(m, t, 1)
    ensures ChainAvoids(m0, m, t)
  {
    forall i: nat | |m0.formulas| <= i < |m.formulas|
      ensures !Reaches(m.terms, m.formulas[i], t) && t !in Leaves(m.terms, m.formulas[i])
    {
      var f := m.formulas[i];
      assert LeadsUpTo(m, f, 1);
      if Reaches(m.terms, f, t) { ReachedLeaves(m.terms, f, t); }
      LeavesAreLeaves(m.terms, f);
    }
  }

  /** Where the old equations hold, a term of one of them is defined, and so is the term shifted. */
  lemma ShiftedDefined(F: Funs, m0: Model, m: Model, t: nat, lagt: nat, d: int, i: nat)
    requires IsModel(m0) && IsModel(m) && GrowsTo(m0, m) && t < |m0.terms| && lagt < |m.terms| && ShiftsExactly(m, t, lagt, d)
    requires i < |m0.formulas| && Reaches(m0.terms, m0.formulas[i], t)
    ensures DefinedWhere(F, m0, m, lagt)
  {
    hide TermValue, HoldsAt, Reaches, IsModel, GrowsTo;
    GrownSizes(m0, m);
    forall x: Path, s: int | Solves(F, m0, x)
      ensures TermValue(F, m, x, s, lagt).Some?
    {
      assert ShiftedAt(F, m, t, lagt, d, x, s);
      assert HoldsAt(F, m0, x, i, s + d);
      TermDefined(F, m0, x, i, s + d, t);
      GrownValue(F, m0, m, x, s + d, t);
    }
  }

  lemma TermDefined(F: Funs, m: Model, x: Path, i: nat, s: int, t: nat)
    requires IsModel(m) && i < |m.formulas| && t < |m.terms| && Reaches(m.terms, m.formulas[i], t) && HoldsAt(F, m, x, i, s)
    ensures TermValue(F, m, x, s, t).Some?
  {
    ReachedDefined(F, m.terms, PointAt(m, x, s), m.formulas[i], t);
  }

  /** The whole replacement of one term. */
  lemma ChainReplaces(m0: Model, names0: set<string>, m: Model, names: set<string>, t: nat, lagt: nat, mlead: int, defs: seq<Def>, i: nat, a: Atom)
    requires InChain(m0, names0, m, names, t, lagt, mlead, defs) && |defs| == mlead - 1 > 0
    requires i < |m0.formulas| && Reaches(m0.terms, m0.formulas[i], t) && NUM_CONSTANTS <= t && !LeadsUpTo(m, t, 1)
    requires a == Atom(defs[|defs| - 1].name, 1)
    ensures IsModel(WithAtomFor(m, t, a)) && Conservative(m0, names0, WithAtomFor(m, t, a), names)
    ensures Later(m0, WithAtomFor(m, t, a), {t}) && NewLeadsShort(m0, WithAtomFor(m, t, a))
  {
    hide Chain, FreshChain, NamesIn, ShiftsExactly, ReadsNames, LeadsUpTo, IsDef, IsModel, GrowsTo, ChainNames, Reaches, DefinedWhere, Conservative, ChainAvoids, Later;
    ChainModels(m0, m, lagt, defs);
    GrownSizes(m0, m);
    ReplacedModel(m, t, a);
    ShortAvoids(m0, m, t);
    forall F: Funs | Lawful(F)
      ensures DefinedWhere(F, m0, m, lagt)
    {
      ShiftedDefined(F, m0, m, t, lagt, 1 - mlead, i);
    }
    ChainConservative(m0, names0, m, lagt, defs);
    assert 1 - mlead == -|defs|;
    ReplacementConservative(m0, m, t, lagt, defs, names);
    ConservativeTrans(m0, names0, m, names, WithAtomFor(m, t, a), names);
    ChainName(m0, m, lagt, defs, |defs| - 1);
    LaterReplaced(m, t, a);
    LaterGrows(m0, m);
    LaterTrans(m0, m, WithAtomFor(m, t, a), {}, {t});
    assert {} + {t} == {t};
    ReplacedLeadsShort(m0, m, t, a);
  }

  lemma ChainName(m0: Model, m: Model, lagt: nat, defs: seq<Def>, k: nat)
    requires Chain(m0, m, lagt, defs) && k < |defs|
    ensures defs[k].name !in m.params
  {
    assert IsDef(m, defs[k], m.formulas[|m0.formulas| + k]);
  }

  lemma ReplacedLeadsShort(m0: Model, m: Model, t: nat, a: Atom)
    requires IsModel(m) && t < |m.terms| && NewLeadsShort(m0, m) && Later(m, WithAtomFor(m, t, a), {t}) && IsModel(WithAtomFor(m, t, a))
    ensures NewLeadsShort(m0, WithAtomFor(m, t, a))
  {
    hide Later, LeadsUpTo;
    var m' := WithAtomFor(m, t, a);
    forall i: nat | |m0.formulas| <= i < |m'.formulas|
      ensures LeadsUpTo(m', m'.formulas[i], 1)
    {
      LaterLeads(m, m', {t}, m.formulas[i], 1);
    }
  }
}
