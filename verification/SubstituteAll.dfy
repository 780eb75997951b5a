/** The drivers that eliminate all lags and leads of a kind, one name at a time. */
module SubstituteAllModule {
  import opened Wrappers
  import opened DynamicAtomsModule
  import opened FormulaParserModule
  import opened LagElimination
  import opened AtomSubstitutionsModule

  /** What eliminating leads of the listed names does to the atoms and the substitutions. */
  ghost predicate Grown(k0: set<Atom>, subst0: map<string, Atom>, k1: set<Atom>, subst1: map<string, Atom>,
                        list: set<string>, step: int, start: int) {
    && (forall a: Atom :: a in k1 ==> a in k0 || (a.name in list && a.ll == start - step) || IsAuxOf(subst1, a, list, step))
    && (forall n: string :: n in subst0 ==> n in subst1 && subst1[n] == subst0[n])
    && (forall n: string :: n in subst1 ==> n in subst0 || subst1[n].name in list)
  }

  predicate IsAuxOf(subst: map<string, Atom>, a: Atom, list: set<string>, step: int) {
    a.name in subst && subst[a.name].name in list && (a.ll == 0 || a.ll == step)
  }

  /** The atoms of the listed names that are still to be eliminated. */
  function Pending(k: set<Atom>, list: set<string>, start: int, limit: int, step: int): set<Atom> {
    set a: Atom | a in k && a.name in list && Within(a.ll, start, limit, step)
  }

  ghost predicate HasPending(k: set<Atom>, name: string, start: int, limit: int, step: int) {
    exists a: Atom :: a in k && a.name == name && Within(a.ll, start, limit, step)
  }

  /** No new name has an atom in the interval when new names are searched too, and new names of
      pending names have no atom one step on. */
  ghost predicate Separate(k: set<Atom>, subst: map<string, Atom>, names: set<string>, list: set<string>, endo: bool,
                           start: int, limit: int, step: int) {
    && (forall a: Atom :: a in k ==> a.name in names || a.name in subst)
    && (forall n: string :: n in subst ==> n !in names)
    && (endo ==> forall a: Atom :: a in k && a.name in subst ==> !Within(a.ll, start, limit, step))
    && (forall n: string :: n in subst && subst[n].name in list && HasPending(k, subst[n].name, start, limit, step) ==> Atom(n, step) !in k)
  }

  /** Eliminating one listed name. */
  lemma OneEliminated(k0: set<Atom>, subst0: map<string, Atom>, k1: set<Atom>, subst1: map<string, Atom>, k2: set<Atom>, subst2: map<string, Atom>,
                      list: set<string>, name: string, step: int, start: int, limit: int)
    requires Grown(k0, subst0, k1, subst1, list, step, start) && name in list && (step == 1 || step == -1)
    requires Eliminated(k1, subst1, k2, subst2, name, step, start, limit) && HasPending(k1, name, start, limit, step)
    requires Towards(start, step) && forall n: string :: n in subst2 ==> n !in list
    ensures Grown(k0, subst0, k2, subst2, list, step, start)
    ensures Pending(k2, list, start, limit, step) < Pending(k1, list, start, limit, step)
  {
    var stop: int :| Replaced(k1, subst1, k2, subst2, name, step, start, stop) && Towards(stop, step);
    forall a: Atom | a in k2
      ensures a in k0 || (a.name in list && a.ll == start - step) || IsAuxOf(subst2, a, list, step)
    {
      if a in k1 {
        assert a in k0 || (a.name in list && a.ll == start - step) || IsAuxOf(subst1, a, list, step);
      } else if a != Atom(name, start - step) {
        assert IsAuxAtom(subst2, a, name, step);
      }
    }
    var a: Atom :| a in k1 && a.name == name && Within(a.ll, start, limit, step);
    assert a in Pending(k1, list, start, limit, step) && a !in Pending(k2, list, start, limit, step);
    forall b: Atom | b in Pending(k2, list, start, limit, step)
      ensures b in Pending(k1, list, start, limit, step)
    {
      assert !IsAuxAtom(subst2, b, name, step);
    }
  }

  lemma StaysSeparate(k1: set<Atom>, subst1: map<string, Atom>, k2: set<Atom>, subst2: map<string, Atom>, names: set<string>,
                      list: set<string>, endo: bool, name: string, step: int, start: int, limit: int)
    requires Separate(k1, subst1, names, list, endo, start, limit, step) && name in list && list <= names
    requires Eliminated(k1, subst1, k2, subst2, name, step, start, limit) && Towards(start, step)
    requires endo ==> !Within(0, start, limit, step) && !Within(step, start, limit, step)
    requires forall n: string :: n in subst2 ==> n !in names
    ensures Separate(k2, subst2, names, list, endo, start, limit, step)
  {
    var stop: int :| Replaced(k1, subst1, k2, subst2, name, step, start, stop) && Towards(stop, step);
    forall a: Atom | a in k2 && !(a in k1)
      ensures a == Atom(name, start - step) || IsAuxAtom(subst2, a, name, step)
    {
    }
    forall n: string | n in subst2 && subst2[n].name in list && HasPending(k2, subst2[n].name, start, limit, step)
      ensures Atom(n, step) !in k2
    {
      var o := subst2[n].name;
      var a: Atom :| a in k2 && a.name == o && Within(a.ll, start, limit, step);
      assert o != name;
      assert n in subst1;
      assert !IsAuxAtom(subst2, a, name, step);
      assert a in k1 && HasPending(k1, o, start, limit, step);
      assert !IsAuxAtom(subst2, Atom(n, step), name, step);
    }
  }

  /** The names whose leads a phase eliminates: old endogenous or exogenous variables. */
  ghost function Searched(fp: FormulaParser, asub: AtomSubstitutions, endo: bool): set<string>
    reads fp, fp.atoms, asub
  {
    SearchedNames(asub.names, fp.atoms.endovars, fp.atoms.exovars, endo)
  }

  ghost function SearchedNames(names: set<string>, endovars: seq<string>, exovars: seq<string>, endo: bool): set<string> {
    set n: string | n in names && n in (if endo then endovars else exovars)
  }

  lemma SearchedStays(names: set<string>, e0: seq<string>, e1: seq<string>, exovars: seq<string>, endo: bool)
    requires SameOldEndos(names, e0, e1)
    ensures SearchedNames(names, e0, exovars, endo) == SearchedNames(names, e1, exovars, endo)
  {
  }

  /** The state between two names of a phase. */
  ghost predicate InPhase(fp: FormulaParser, asub: AtomSubstitutions, k0: set<Atom>, subst0: map<string, Atom>, list: set<string>,
                          endo: bool, start: int, limit: int, step: int)
    reads fp, fp.otree, fp.atoms, asub
  {
    && asub.Faithful(fp) && list == Searched(fp, asub, endo)
    && Grown(k0, subst0, fp.atoms.vars.Keys, asub.new2old, list, step, start)
    && Separate(fp.atoms.vars.Keys, asub.new2old, asub.names, list, endo, start, limit, step)
  }

  /** Eliminates the leads in an interval of all endogenous or all exogenous variables. */
  method EliminatePhase(fp: FormulaParser, asub: AtomSubstitutions, endo: bool, start: int, limit: int, step: int)
    requires asub.Faithful(fp) && (step == 1 || step == -1) && Towards(start, step) && InRange(start - step)
    requires endo ==> !Within(step, start, limit, step)
    requires Separate(fp.atoms.vars.Keys, asub.new2old, asub.names, Searched(fp, asub, endo), endo, start, limit, step)
    modifies fp`formulas, fp.otree, fp.atoms, asub
    ensures asub.Faithful(fp) && asub.names == old(asub.names) && asub.before == old(asub.before) && fp.atoms.exovars == old(fp.atoms.exovars)
    ensures Searched(fp, asub, endo) == old(Searched(fp, asub, endo)) && SameOldEndos(asub.names, old(fp.atoms.endovars), fp.atoms.endovars)
    ensures Grown(old(fp.atoms.vars.Keys), old(asub.new2old), fp.atoms.vars.Keys, asub.new2old, old(Searched(fp, asub, endo)), step, start)
    ensures forall a: Atom :: a in fp.atoms.vars && a.name in (if endo then fp.atoms.endovars else fp.atoms.exovars) ==> !Within(a.ll, start, limit, step)
  {
    hide AtomSubstitutions.Valid, FormulaParser.Valid, Eliminates, NamesKnown, Grown, Separate, Searched, Eliminated, Untouched, SameOldEndos;
    ghost var k0, subst0, list := fp.atoms.vars.Keys, asub.new2old, Searched(fp, asub, endo);
    NothingGrown(k0, subst0, list, step, start);
    FaithfulAtoms(fp, asub);
    SameOldEndosSelf(asub.names, fp.atoms.endovars);
    var found := FindPending(fp.atoms, endo, start, limit, step);
    while found.Some?
      invariant InPhase(fp, asub, k0, subst0, list, endo, start, limit, step)
      invariant asub.names == old(asub.names) && asub.before == old(asub.before) && fp.atoms.exovars == old(fp.atoms.exovars)
      invariant SameOldEndos(asub.names, old(fp.atoms.endovars), fp.atoms.endovars)
      invariant found.Some? ==> SearchesName(fp.atoms, endo, found.value) && HasPending(fp.atoms.vars.Keys, found.value, start, limit, step)
      invariant found == None ==> forall n: string :: SearchesName(fp.atoms, endo, n) ==> !HasPending(fp.atoms.vars.Keys, n, start, limit, step)
      decreases Pending(fp.atoms.vars.Keys, list, start, limit, step)
    {
      ghost var endovars := fp.atoms.endovars;
      EliminateName(fp, asub, k0, subst0, list, endo, found.value, start, limit, step);
      SameOldEndosTrans(asub.names, old(fp.atoms.endovars), endovars, fp.atoms.endovars);
      FaithfulAtoms(fp, asub);
      found := FindPending(fp.atoms, endo, start, limit, step);
    }
    NothingPending(fp.atoms, endo, start, limit, step);
  }

  predicate SearchesName(atoms: DynamicAtoms, endo: bool, n: string)
    reads atoms
  {
    n in if endo then atoms.endovars else atoms.exovars
  }

  lemma NothingPending(atoms: DynamicAtoms, endo: bool, start: int, limit: int, step: int)
    requires forall n: string :: SearchesName(atoms, endo, n) ==> !HasPending(atoms.vars.Keys, n, start, limit, step)
    ensures forall a: Atom :: a in atoms.vars && a.name in (if endo then atoms.endovars else atoms.exovars) ==> !Within(a.ll, start, limit, step)
  {
    forall a: Atom | a in atoms.vars && a.name in (if endo then atoms.endovars else atoms.exovars)
      ensures !Within(a.ll, start, limit, step)
    {
      assert SearchesName(atoms, endo, a.name);
      assert a in atoms.vars.Keys;
    }
  }

  lemma NothingGrown(k0: set<Atom>, subst0: map<string, Atom>, list: set<string>, step: int, start: int)
    ensures Grown(k0, subst0, k0, subst0, list, step, start)
  {
  }

  /** The first variable with an atom in the interval. */
  method FindPending(atoms: DynamicAtoms, endo: bool, start: int, limit: int, step: int) returns (found: Option<string>)
    requires atoms.Valid() && (step == 1 || step == -1)
    ensures found.Some? ==> SearchesName(atoms, endo, found.value) && HasPending(atoms.vars.Keys, found.value, start, limit, step)
    ensures found == None ==> forall n: string :: SearchesName(atoms, endo, n) ==> !HasPending(atoms.vars.Keys, n, start, limit, step)
  {
    var ll1, ll2 := if step == 1 then start else limit, if step == 1 then limit else start;
    found := atoms.FindNameWithLeadInInterval(if endo then atoms.endovars else atoms.exovars, ll1, ll2);
    forall n: string
      ensures atoms.HasLeadIn(n, ll1, ll2) <==> HasPending(atoms.vars.Keys, n, start, limit, step)
    {
      if atoms.HasLeadIn(n, ll1, ll2) {
        var a: Atom :| a in atoms.vars && a.name == n && ll1 <= a.ll <= ll2;
        assert a in atoms.vars.Keys;
      }
    }
  }

  /** Eliminates the leads of one name of a phase. */
  method EliminateName(fp: FormulaParser, asub: AtomSubstitutions, ghost k0: set<Atom>, ghost subst0: map<string, Atom>,
                       ghost list: set<string>, endo: bool, name: string, start: int, limit: int, step: int)
    requires InPhase(fp, asub, k0, subst0, list, endo, start, limit, step)
    requires (step == 1 || step == -1) && Towards(start, step) && InRange(start - step) && (endo ==> !Within(step, start, limit, step))
    requires SearchesName(fp.atoms, endo, name) && HasPending(fp.atoms.vars.Keys, name, start, limit, step)
    modifies fp`formulas, fp.otree, fp.atoms, asub
    ensures InPhase(fp, asub, k0, subst0, list, endo, start, limit, step)
    ensures asub.names == old(asub.names) && asub.before == old(asub.before) && fp.atoms.exovars == old(fp.atoms.exovars)
    ensures SameOldEndos(asub.names, old(fp.atoms.endovars), fp.atoms.endovars)
    ensures Pending(fp.atoms.vars.Keys, list, start, limit, step) < old(Pending(fp.atoms.vars.Keys, list, start, limit, step))
  {
    hide SameOldEndos;
    hide AtomSubstitutions.Valid, FormulaParser.Valid, Eliminates, NamesKnown, Grown, Separate, SearchedNames, Eliminated, Untouched, HasPending, Pending;
    ghost var k1, subst1 := fp.atoms.vars.Keys, asub.new2old;
    PendingIsOld(fp, asub, list, endo, name, start, limit, step);
    var ok := MakeAuxVariables(fp, asub, name, step, start, limit);
    ghost var k2, subst2 := fp.atoms.vars.Keys, asub.new2old;
    NewNamesApart(fp, asub);
    SearchedStays(asub.names, old(fp.atoms.endovars), fp.atoms.endovars, fp.atoms.exovars, endo);
    OneEliminated(k0, subst0, k1, subst1, k2, subst2, list, name, step, start, limit);
    StaysSeparate(k1, subst1, k2, subst2, asub.names, list, endo, name, step, start, limit);
  }

  /** A pending name is an old variable whose new names leave the step free. */
  lemma PendingIsOld(fp: FormulaParser, asub: AtomSubstitutions, list: set<string>, endo: bool, name: string, start: int, limit: int, step: int)
    requires asub.Faithful(fp) && list == Searched(fp, asub, endo)
    requires Separate(fp.atoms.vars.Keys, asub.new2old, asub.names, list, endo, start, limit, step)
    requires SearchesName(fp.atoms, endo, name) && HasPending(fp.atoms.vars.Keys, name, start, limit, step)
    requires step == 1 || step == -1
    ensures name in list && name in asub.names && name !in fp.AsModel().params && list <= asub.names
    ensures Untouched(fp.atoms.vars.Keys, asub.new2old, name, step) && step * start <= step * limit
  {
    var a: Atom :| a in fp.atoms.vars.Keys && a.name == name && Within(a.ll, start, limit, step);
    KnownName(fp, asub, name, endo);
    StepTimes(step, start);
    StepTimes(step, limit);
  }

  lemma KnownName(fp: FormulaParser, asub: AtomSubstitutions, name: string, endo: bool)
    requires asub.Faithful(fp) && SearchesName(fp.atoms, endo, name)
    ensures name in asub.names || (endo && name in asub.new2old)
    ensures name !in fp.AsModel().params
  {
  }

  lemma NewNamesApart(fp: FormulaParser, asub: AtomSubstitutions)
    requires asub.Faithful(fp)
    ensures forall n: string :: n in asub.new2old ==> n !in asub.names
  {
  }

  // ----- the drivers -----

  /** Least and greatest lead. */
  datatype Span = Span(lo: int, hi: int)

  /** The leads of the atoms of the listed names. */
  ghost predicate LeadsIn(k: set<Atom>, list: set<string>, b: Span) {
    forall a: Atom :: a in k && a.name in list ==> b.lo <= a.ll <= b.hi
  }

  /** The leads between two phases: of the old endogenous names, the exogenous names and the new names. */
  ghost predicate Leads(fp: FormulaParser, asub: AtomSubstitutions, endos: set<string>, exos: set<string>, e: Span, x: Span, n: Span)
    reads fp, fp.otree, fp.atoms, asub
  {
    && asub.Faithful(fp) && endos == Searched(fp, asub, true) && exos == Searched(fp, asub, false)
    && LeadsIn(fp.atoms.vars.Keys, endos, e) && LeadsIn(fp.atoms.vars.Keys, exos, x) && LeadsIn(fp.atoms.vars.Keys, asub.new2old.Keys, n)
  }

  /** The leads of the searched names after a phase. */
  function Cut(b: Span, start: int, limit: int, step: int): Span {
    if step == -1 then Span(if limit <= b.lo then start + 1 else Min(b.lo, start + 1), Max(b.hi, start + 1))
    else Span(Min(b.lo, start - 1), if limit >= b.hi then start - 1 else Max(b.hi, start - 1))
  }

  /** The leads of the new names after a phase. */
  function Widen(b: Span, step: int): Span {
    Span(Min(b.lo, Min(0, step)), Max(b.hi, Max(0, step)))
  }

  lemma KnownAtoms(fp: FormulaParser, asub: AtomSubstitutions)
    requires asub.Faithful(fp)
    ensures forall a: Atom :: a in fp.atoms.vars.Keys ==> a.name in asub.names || a.name in asub.new2old
    ensures forall n: string :: n in asub.new2old ==> n !in asub.names
    ensures Searched(fp, asub, true) !! Searched(fp, asub, false)
    ensures Searched(fp, asub, true) <= asub.names && Searched(fp, asub, false) <= asub.names
    ensures forall n: string :: n in fp.atoms.endovars ==> n in Searched(fp, asub, true) || n in asub.new2old
    ensures forall n: string :: n in fp.atoms.exovars <==> n in Searched(fp, asub, false)
    ensures forall n: string :: n in Searched(fp, asub, true) ==> n in fp.atoms.endovars
  {
  }

  lemma NewNamesAfter(k0: set<Atom>, subst0: map<string, Atom>, k1: set<Atom>, subst1: map<string, Atom>, names: set<string>,
                      list: set<string>, step: int, start: int, n: Span)
    requires Grown(k0, subst0, k1, subst1, list, step, start) && list <= names
    requires forall a: Atom :: a in k0 ==> a.name in names || a.name in subst0
    requires forall m: string :: m in subst1 ==> m !in names
    requires LeadsIn(k0, subst0.Keys, n)
    ensures LeadsIn(k1, subst1.Keys, Widen(n, step))
  {
  }

  lemma OtherNamesAfter(k0: set<Atom>, subst0: map<string, Atom>, k1: set<Atom>, subst1: map<string, Atom>, names: set<string>,
                        list: set<string>, step: int, start: int, others: set<string>, b: Span)
    requires Grown(k0, subst0, k1, subst1, list, step, start) && others <= names && others !! list
    requires forall m: string :: m in subst1 ==> m !in names
    requires LeadsIn(k0, others, b)
    ensures LeadsIn(k1, others, b)
  {
  }

  lemma SearchedNamesAfter(k0: set<Atom>, subst0: map<string, Atom>, k1: set<Atom>, subst1: map<string, Atom>, names: set<string>,
                           list: set<string>, step: int, start: int, limit: int, b: Span)
    requires Grown(k0, subst0, k1, subst1, list, step, start) && list <= names && (step == 1 || step == -1)
    requires forall m: string :: m in subst1 ==> m !in names
    requires LeadsIn(k0, list, b) && forall a: Atom :: a in k1 && a.name in list ==> !Within(a.ll, start, limit, step)
    ensures LeadsIn(k1, list, Cut(b, start, limit, step))
  {
  }

  /** New names whose leads are outside of the interval and not at the step do not disturb a phase. */
  lemma NamesSeparate(k: set<Atom>, subst: map<string, Atom>, names: set<string>, list: set<string>, endo: bool,
                      start: int, limit: int, step: int, n: Span)
    requires forall a: Atom :: a in k ==> a.name in names || a.name in subst
    requires forall m: string :: m in subst ==> m !in names
    requires LeadsIn(k, subst.Keys, n) && (endo ==> if step == 1 then n.hi < start else start < n.lo)
    requires (forall m: string :: m in subst ==> subst[m].name !in list) || !(n.lo <= step <= n.hi)
    ensures Separate(k, subst, names, list, endo, start, limit, step)
  {
    forall m: string | m in subst && subst[m].name in list && HasPending(k, subst[m].name, start, limit, step)
      ensures Atom(m, step) !in k
    {
      assert Atom(m, step).ll == step && Atom(m, step).name == m;
    }
  }

  /** A phase, with what it does to the leads. */
  method RunPhase(fp: FormulaParser, asub: AtomSubstitutions, endo: bool, start: int, limit: int, step: int,
                  ghost endos: set<string>, ghost exos: set<string>, ghost e: Span, ghost x: Span, ghost n: Span)
    requires Leads(fp, asub, endos, exos, e, x, n)
    requires (step == 1 || step == -1) && Towards(start, step) && InRange(start - step)
    requires endo ==> (if step == 1 then Max(n.hi, 1) < start else start < Min(n.lo, -1))
    requires (forall m: string :: m in asub.new2old ==> asub.new2old[m].name !in (if endo then endos else exos)) || !(n.lo <= step <= n.hi)
    modifies fp`formulas, fp.otree, fp.atoms, asub
    ensures Leads(fp, asub, endos, exos, if endo then Cut(e, start, limit, step) else e,
                  if endo then x else Cut(x, start, limit, step), Widen(n, step))
    ensures asub.names == old(asub.names) && asub.before == old(asub.before) && fp.atoms.exovars == old(fp.atoms.exovars)
    ensures forall m: string :: m in asub.new2old && m !in old(asub.new2old) ==> asub.new2old[m].name in (if endo then endos else exos)
    ensures forall m: string :: m in old(asub.new2old) ==> m in asub.new2old && asub.new2old[m] == old(asub.new2old)[m]
    ensures forall a: Atom :: a in fp.atoms.vars && a.name in (if endo then endos else exos) ==> !Within(a.ll, start, limit, step)
  {
    hide AtomSubstitutions.Faithful, Separate, LeadsIn, Within, Cut, Widen, Towards, InRange;
    ghost var k0, subst0, names := fp.atoms.vars.Keys, asub.new2old, asub.names;
    KnownAtoms(fp, asub);
    ghost var list, others := if endo then endos else exos, if endo then exos else endos;
    ghost var b, c := if endo then e else x, if endo then x else e;
    NamesSeparate(k0, subst0, names, list, endo, start, limit, step, n);
    StepOutside(start, limit, step);
    EliminatePhase(fp, asub, endo, start, limit, step);
    SearchedStays(names, old(fp.atoms.endovars), fp.atoms.endovars, fp.atoms.exovars, true);
    ghost var k1, subst1 := fp.atoms.vars.Keys, asub.new2old;
    NewNamesApart(fp, asub);
    NewNamesAfter(k0, subst0, k1, subst1, names, list, step, start, n);
    OtherNamesAfter(k0, subst0, k1, subst1, names, list, step, start, others, c);
    SearchedNamesAfter(k0, subst0, k1, subst1, names, list, step, start, limit, b);
  }

  lemma StepOutside(start: int, limit: int, step: int)
    requires if step == 1 then true else step == -1
    ensures (if step == 1 then 1 < start else start < -1) ==> !Within(step, start, limit, step)
  {
  }

  lemma FirstLeads(fp: FormulaParser, asub: AtomSubstitutions, e: Span, x: Span)
    requires asub.Faithful(fp) && asub.new2old == map[]
    requires Spans(fp.atoms.AtomsOf(set n: string | n in fp.atoms.endovars), e.lo, e.hi)
    requires forall a: Atom :: a in fp.atoms.vars && a.name in fp.atoms.exovars ==> x.lo <= a.ll <= x.hi
    ensures Leads(fp, asub, Searched(fp, asub, true), Searched(fp, asub, false), e, x, Span(0, 0))
  {
    assert forall a: Atom :: a in fp.atoms.vars && a.name in fp.atoms.endovars ==> a in fp.atoms.AtomsOf(set n: string | n in fp.atoms.endovars);
  }

  lemma FinalLeads(fp: FormulaParser, asub: AtomSubstitutions, endos: set<string>, exos: set<string>, e: Span, x: Span, n: Span)
    requires Leads(fp, asub, endos, exos, e, x, n)
    ensures forall a: Atom :: a in fp.atoms.vars && a.name in fp.atoms.endovars ==> Min(e.lo, n.lo) <= a.ll <= Max(e.hi, n.hi)
    ensures forall a: Atom :: a in fp.atoms.vars && a.name in fp.atoms.exovars ==> x.lo <= a.ll <= x.hi
  {
    KnownAtoms(fp, asub);
    assert forall a: Atom :: a in fp.atoms.vars ==> a in fp.atoms.vars.Keys;
  }

  /** The span of the exogenous variables, while the endogenous ones are known to be the same. */
  method ExoSpan(fp: FormulaParser, asub: AtomSubstitutions, ghost endos: set<string>, ghost exos: set<string>, ghost e: Span, ghost x: Span, ghost n: Span)
    returns (mlead: int, mlag: int)
    requires Leads(fp, asub, endos, exos, e, x, n)
    ensures Spans(fp.atoms.AtomsOf(set m: string | m in fp.atoms.exovars), mlag, mlead)
    ensures Leads(fp, asub, endos, exos, e, Span(mlag, mlead), n) && (x.hi >= INT_MIN ==> mlead <= x.hi)
  {
    hide Spans;
    mlead, mlag := fp.atoms.Varspan(fp.atoms.exovars);
    ExoSpanIs(fp, asub, mlag, mlead, x);
  }

  lemma ExoSpanIs(fp: FormulaParser, asub: AtomSubstitutions, lo: int, hi: int, x: Span)
    requires asub.Faithful(fp) && Spans(fp.atoms.AtomsOf(set n: string | n in fp.atoms.exovars), lo, hi)
    requires LeadsIn(fp.atoms.vars.Keys, Searched(fp, asub, false), x)
    ensures LeadsIn(fp.atoms.vars.Keys, Searched(fp, asub, false), Span(lo, hi)) && (x.hi >= INT_MIN ==> hi <= x.hi)
  {
    KnownAtoms(fp, asub);
    assert forall a: Atom :: a in fp.atoms.vars && a.name in fp.atoms.exovars ==> a in fp.atoms.AtomsOf(set n: string | n in fp.atoms.exovars);
  }

  lemma ShortSpan(atoms: DynamicAtoms, lo: int, hi: int)
    requires Spans(atoms.AtomsOf(set n: string | n in atoms.endovars), lo, hi)
    ensures (forall a: Atom :: a in atoms.vars && a.name in atoms.endovars ==> a.ll <= 1) ==> hi <= 1
  {
  }

  /** Leaves a model whose endogenous variables lag by at most one and lead by at most one if they did before; its exogenous variables do not
      lag, and do not lead either when they led by at most one. */
  method SubstituteAllLagsAndExo1Leads(fp: FormulaParser, asub: AtomSubstitutions)
    requires asub.Faithful(fp) && asub.new2old == map[]
    modifies fp`formulas, fp.otree, fp.atoms, asub
    ensures asub.Faithful(fp) && asub.names == old(asub.names) && asub.before == old(asub.before) && fp.atoms.exovars == old(fp.atoms.exovars)
    ensures forall a: Atom :: a in fp.atoms.vars && a.name in fp.atoms.endovars ==> a.ll >= -1
    ensures forall a: Atom :: a in fp.atoms.vars && a.name in fp.atoms.exovars ==> a.ll >= 0
    ensures (forall a: Atom :: a in old(fp.atoms.vars) && a.name in old(fp.atoms.endovars) ==> a.ll <= 1) ==>
      forall a: Atom :: a in fp.atoms.vars && a.name in fp.atoms.endovars ==> a.ll <= 1
    ensures (forall a: Atom :: a in old(fp.atoms.vars) && a.name in old(fp.atoms.exovars) ==> a.ll <= 1) ==>
      forall a: Atom :: a in fp.atoms.vars && a.name in fp.atoms.exovars ==> a.ll == 0
  {
    hide AtomSubstitutions.Faithful, AtomSubstitutions.Valid, FormulaParser.Valid, Spans, LeadsIn, Searched;
    FaithfulAtoms(fp, asub);
    ghost var endos, exos := Searched(fp, asub, true), Searched(fp, asub, false);
    KnownAtoms(fp, asub);
    var mlead, mlag := fp.atoms.Varspan(fp.atoms.endovars);
    ghost var short := forall a: Atom :: a in fp.atoms.vars && a.name in fp.atoms.exovars ==> a.ll <= 1;
    ghost var e, x := Span(mlag, mlead), Span(INT_MIN, if short then 1 else INT_MAX);
    FirstLeads(fp, asub, e, x);
    ShortSpan(fp.atoms, mlag, mlead);
    RunPhase(fp, asub, true, -2, mlag, -1, endos, exos, e, x, Span(0, 0));
    e := Cut(e, -2, mlag, -1);
    mlead, mlag := ExoSpan(fp, asub, endos, exos, e, x, Span(-1, 0));
    x := Span(mlag, mlead);
    RunPhase(fp, asub, false, -1, mlag, -1, endos, exos, e, x, Span(-1, 0));
    x := Cut(x, -1, mlag, -1);
    RunPhase(fp, asub, false, 1, 1, 1, endos, exos, e, x, Span(-1, 0));
    x := Cut(x, 1, 1, 1);
    FinalLeads(fp, asub, endos, exos, e, x, Span(-1, 1));
  }
}
