/** Auxiliary variables for lags and leads: their names, their equations, and the driver that
    leaves a model with lags of at most one. */
module AtomSubstitutionsModule {
  import opened Wrappers
  import opened AuxNames
  import opened Terms
  import opened OperationTrees
  import opened DynamicAtomsModule
  import opened ModelMeaning
  import opened FormulaParserModule
  import opened LagElimination

  ghost predicate Records(new2old: map<string, Atom>, old2new: map<string, set<Atom>>, n: string)
    requires n in new2old
  {
    new2old[n].name in old2new && Atom(n, -new2old[n].ll) in old2new[new2old[n].name]
  }

  ghost predicate AllRecorded(new2old: map<string, Atom>, old2new: map<string, set<Atom>>) {
    forall n: string :: n in new2old ==> Records(new2old, old2new, n)
  }

  ghost predicate RecordsTrue(new2old: map<string, Atom>, old2new: map<string, set<Atom>>) {
    forall o: string, x: Atom :: o in old2new && x in old2new[o] ==> x.name in new2old && new2old[x.name] == Atom(o, -x.ll)
  }

  ghost predicate OneName(new2old: map<string, Atom>) {
    forall n: string, m: string :: n in new2old && m in new2old && new2old[n] == new2old[m] ==> n == m
  }

  /** The two maps are inverse, and no shift of a name has two new names. */
  ghost predicate Inverse(new2old: map<string, Atom>, old2new: map<string, set<Atom>>) {
    AllRecorded(new2old, old2new) && RecordsTrue(new2old, old2new) && OneName(new2old)
  }

  /** The shifts of an old name that have new names. */
  function ShiftsOf(old2new: map<string, set<Atom>>, oldname: string): set<Atom> {
    if oldname in old2new then old2new[oldname] else {}
  }

  lemma InverseExtends(new2old: map<string, Atom>, old2new: map<string, set<Atom>>, newname: string, a: Atom)
    requires Inverse(new2old, old2new) && newname !in new2old
    requires forall n: string :: n in new2old ==> new2old[n] != a
    ensures Inverse(new2old[newname := a], old2new[a.name := ShiftsOf(old2new, a.name) + {Atom(newname, -a.ll)}])
  {
    hide AllRecorded, RecordsTrue;
    RecordedExtends(new2old, old2new, newname, a);
    TrueExtends(new2old, old2new, newname, a);
  }

  lemma RecordedExtends(new2old: map<string, Atom>, old2new: map<string, set<Atom>>, newname: string, a: Atom)
    requires AllRecorded(new2old, old2new) && newname !in new2old
    ensures AllRecorded(new2old[newname := a], old2new[a.name := ShiftsOf(old2new, a.name) + {Atom(newname, -a.ll)}])
  {
    var more, inverse := new2old[newname := a], old2new[a.name := ShiftsOf(old2new, a.name) + {Atom(newname, -a.ll)}];
    forall n: string | n in more
      ensures Records(more, inverse, n)
    {
      if n != newname { assert Records(new2old, old2new, n); }
    }
  }

  lemma TrueExtends(new2old: map<string, Atom>, old2new: map<string, set<Atom>>, newname: string, a: Atom)
    requires RecordsTrue(new2old, old2new) && newname !in new2old
    ensures RecordsTrue(new2old[newname := a], old2new[a.name := ShiftsOf(old2new, a.name) + {Atom(newname, -a.ll)}])
  {
    var more := old2new[a.name := ShiftsOf(old2new, a.name) + {Atom(newname, -a.ll)}];
    forall o: string, x: Atom | o in more && x in more[o]
      ensures x.name in new2old[newname := a] && new2old[newname := a][x.name] == Atom(o, -x.ll)
    {
      if o in old2new && x in old2new[o] {
        assert x.name in new2old;
      }
    }
  }

  /** New names are endogenous, and there are no other new names. */
  ghost predicate NamesKnown(names: set<string>, subst: map<string, Atom>, s: AtomsState) {
    && (forall n: string :: n in names || n in subst <==> n in s.varnames)
    && (forall n: string :: n in s.endovars ==> n in names || n in subst)
    && (forall n: string :: n in s.exovars ==> n in names)
    && (forall n: string :: n in subst ==> n in s.endovars)
  }

  lemma NamesKnownMore(names: set<string>, subst: map<string, Atom>, s: AtomsState, newname: string, target: Atom, s': AtomsState)
    requires NamesKnown(names, subst, s)
    requires s'.varnames == s.varnames + {newname} && s'.endovars == s.endovars + [newname] && s'.exovars == s.exovars
    ensures NamesKnown(names, subst[newname := target], s')
  {
  }

  lemma NamesKnownSame(names: set<string>, subst: map<string, Atom>, s: AtomsState, s': AtomsState)
    requires NamesKnown(names, subst, s) && s'.varnames == s.varnames && s'.endovars == s.endovars && s'.exovars == s.exovars
    ensures NamesKnown(names, subst, s')
  {
  }

  /** The record of the substitutions, both ways. */
  class AtomSubstitutions {
    var new2old: map<string, Atom>
    /** For an old name, the new names with the shift that leads back to the old one. */
    var old2new: map<string, set<Atom>>
    var numSubsts: nat
    /** The model at the start, its declared names, and the auxiliary equations so far. */
    ghost var before: Model
    ghost var names: set<string>
    ghost var links: seq<Link>

    ghost predicate Valid()
      reads this
    {
      Inverse(new2old, old2new) && numSubsts == |new2old|
    }

    /** The formulas of the parser are the model at the start with the substitutions made. */
    ghost predicate Faithful(fp: FormulaParser)
      reads this, fp, fp.otree, fp.atoms
    {
      && Valid() && fp.Valid()
      && Eliminates(before, names, fp.AsModel(), new2old, links)
      && NamesKnown(names, new2old, fp.atoms.State())
    }

    /** No substitutions yet. */
    constructor (fp: FormulaParser)
      requires fp.Valid()
      ensures Faithful(fp) && new2old == map[] && old2new == map[] && before == fp.AsModel() && names == fp.atoms.varnames
    {
      new2old, old2new, numSubsts := map[], map[], 0;
      before, names, links := fp.AsModel(), fp.atoms.varnames, [];
      new;
      NothingEliminated(before, names);
    }

    method AddSubstitution(newname: string, oldname: string, tshift: int)
      requires Valid() && newname !in new2old && forall n: string :: n in new2old ==> new2old[n] != Atom(oldname, tshift)
      modifies this`new2old, this`old2new, this`numSubsts
      ensures Valid() && new2old == old(new2old)[newname := Atom(oldname, tshift)]
      ensures forall o: string :: o in old2new <==> o in old(old2new) || o == oldname
    {
      hide Inverse;
      InverseExtends(new2old, old2new, newname, Atom(oldname, tshift));
      new2old := new2old[newname := Atom(oldname, tshift)];
      old2new := old2new[oldname := ShiftsOf(old2new, oldname) + {Atom(newname, -tshift)}];
      numSubsts := numSubsts + 1;
    }

    /** The new name for an old name with a shift. */
    method GetNew4Old(oldname: string, tshift: int) returns (found: Option<string>)
      requires Valid()
      ensures found.Some? ==> found.value in new2old && new2old[found.value] == Atom(oldname, tshift)
      ensures found == None ==> forall n: string :: n in new2old ==> new2old[n] != Atom(oldname, tshift)
    {
      if oldname in old2new && exists x: Atom :: x in old2new[oldname] && x.ll == -tshift {
        var x: Atom :| x in old2new[oldname] && x.ll == -tshift;
        return Some(x.name);
      }
      forall n: string | n in new2old
        ensures new2old[n] != Atom(oldname, tshift)
      {
        assert Records(new2old, old2new, n);
      }
      return None;
    }
  }

  // ----- names -----

  /** The iter-th name that is tried for an auxiliary variable. */
  function Candidate(str: string, ll: int, iter: nat): string {
    str + "_" + seq(iter, _ => if ll > 0 then 'p' else if ll == 0 then 'e' else 'm') + if ll != 0 then Decimal(Abs(ll)) else ""
  }

  /** What the candidates look like. */
  lemma CandidateShapes()
    ensures Candidate("a", -2, 1) == "a_m2" && Candidate("a", 1, 2) == "a_pp1" && Candidate("a", 0, 1) == "a_e"
  {
    assert Decimal(1) == "1" && Decimal(2) == "2";
    assert seq(1, _ => 'm') == "m" && seq(2, _ => 'p') == "pp" && seq(1, _ => 'e') == "e";
  }

  lemma CandidateLength(str: string, ll: int, iter: nat)
    ensures |Candidate(str, ll, iter)| == |Candidate(str, ll, 0)| + iter
  {
  }

  lemma {:induction false} FitsIn(a: set<string>, b: set<string>)
    requires a <= b
    ensures |a| <= |b|
    decreases a
  {
    if a != {} {
      var x: string :| x in a;
      FitsIn(a - {x}, b - {x});
    }
  }

  /** The first candidate that is not declared. */
  method AttemptAuxName(atoms: DynamicAtoms, str: string, ll: int) returns (out: string, ghost tries: nat)
    ensures out !in atoms.varnames && tries > 0 && out == Candidate(str, ll, tries)
    ensures forall i: nat :: 1 <= i < tries ==> Candidate(str, ll, i) in atoms.varnames
  {
    var iter := 1;
    out := Candidate(str, ll, iter);
    ghost var tried: set<string> := {};
    while out in atoms.varnames
      invariant iter > 0 && out == Candidate(str, ll, iter)
      invariant forall i: nat :: 1 <= i < iter ==> Candidate(str, ll, i) in atoms.varnames
      invariant tried <= atoms.varnames && |tried| == iter - 1
      invariant forall x: string :: x in tried ==> |x| < |out|
      decreases |atoms.varnames| - iter
    {
      FitsIn(tried + {out}, atoms.varnames);
      tried := tried + {out};
      CandidateLength(str, ll, iter);
      CandidateLength(str, ll, iter + 1);
      iter := iter + 1;
      out := Candidate(str, ll, iter);
    }
    tries := iter;
  }

  // ----- auxiliary variables -----

  /** What finding or creating the new name for a shift of an old name does to the atoms. */
  ghost predicate NameAdded(s0: AtomsState, subst0: map<string, Atom>, s1: AtomsState, subst1: map<string, Atom>,
                            name: string, shift: int, newname: string) {
    && newname in subst1 && subst1[newname] == Atom(name, shift)
    && s1.params == s0.params && s1.exovars == s0.exovars
    && if newname in subst0 then s1 == s0 && subst1 == subst0
       else && newname !in s0.varnames && s1.varnames == s0.varnames + {newname} && s1.endovars == s0.endovars + [newname]
            && subst1 == subst0[newname := Atom(name, shift)] && Atom(newname, 0) !in s0.vars
            && exists leaf: nat :: leaf !in s0.indices && s1.vars == s0.vars[Atom(newname, 0) := leaf]
                                   && s1.indices == s0.indices[leaf := Atom(newname, 0)]
  }

  /** Creates the new name for a shift of an old name, with its equation, unless it exists. */
  method AuxName(fp: FormulaParser, asub: AtomSubstitutions, name: string, shift: int, tprev: nat) returns (newname: string)
    requires asub.Faithful(fp) && name in asub.names && name !in fp.AsModel().params
    requires StandsFor(fp.AsModel(), asub.new2old, tprev, Atom(name, shift))
    modifies fp`formulas, fp.otree, fp.atoms, asub
    ensures asub.Faithful(fp) && asub.names == old(asub.names) && asub.before == old(asub.before)
    ensures NameAdded(old(fp.atoms.State()), old(asub.new2old), fp.atoms.State(), asub.new2old, name, shift, newname)
  {
    hide Inverse, Eliminates, IsModel, StandsFor, Candidate;
    var found := asub.GetNew4Old(name, shift);
    if found.Some? {
      return found.value;
    }
    ghost var tries;
    newname, tries := AttemptAuxName(fp.atoms, name, shift);
    CreateName(fp, asub, name, shift, tprev, newname);
  }

  method CreateName(fp: FormulaParser, asub: AtomSubstitutions, name: string, shift: int, tprev: nat, newname: string)
    requires asub.Faithful(fp) && name in asub.names && name !in fp.AsModel().params
    requires StandsFor(fp.AsModel(), asub.new2old, tprev, Atom(name, shift))
    requires newname !in fp.atoms.varnames && forall n: string :: n in asub.new2old ==> asub.new2old[n] != Atom(name, shift)
    modifies fp`formulas, fp.otree, fp.atoms, asub
    ensures asub.Faithful(fp) && asub.names == old(asub.names) && asub.before == old(asub.before)
    ensures newname !in old(asub.new2old)
    ensures NameAdded(old(fp.atoms.State()), old(asub.new2old), fp.atoms.State(), asub.new2old, name, shift, newname)
  {
    hide Inverse, Eliminates, IsModel, StandsFor, IsBinary, Unused, OperationTree.Shape, DynamicAtoms.Valid, DynamicAtoms.Declared, NamesKnown;
    ghost var m0, s0 := fp.AsModel(), fp.atoms.State();
    Opened(fp, asub, newname);
    LeafBound(m0, asub.new2old, tprev, Atom(name, shift));
    var taux := DeclareLeaf(fp, newname, m0);
    var f := fp.AddDifference(taux, tprev);
    NameCreated(asub.before, asub.names, m0, asub.new2old, asub.links, newname, Atom(name, shift), tprev, fp.AsModel(), f);
    asub.AddSubstitution(newname, name, shift);
    asub.links := asub.links + [Link(newname, taux, tprev)];
    NamesKnownMore(asub.names, old(asub.new2old), s0, newname, Atom(name, shift), fp.atoms.State());
  }

  /** Declares a new name, with a leaf at time zero. */
  method DeclareLeaf(fp: FormulaParser, newname: string, ghost m0: Model) returns (taux: nat)
    requires fp.Valid() && fp.AsModel() == m0 && newname !in fp.atoms.varnames && Atom(newname, 0) !in fp.atoms.vars
    modifies fp.otree, fp.atoms
    ensures fp.Valid() && fp.AsModel() == WithLeaf(m0, Atom(newname, 0)) && IsModel(fp.AsModel())
    ensures taux == |m0.terms| && taux !in m0.atoms && m0.terms + [Nulary] == fp.otree.terms
    ensures ghost var s := old(fp.atoms.State());
            fp.atoms.State() == s.(varnames := s.varnames + {newname}, endovars := s.endovars + [newname],
                                   vars := s.vars[Atom(newname, 0) := taux], indices := s.indices[taux := Atom(newname, 0)])
  {
    hide Reduced, Consed, Incident, Spans, IsModel, Matched;
    var ok := fp.atoms.RegisterUniqEndo(newname);
    var leaf := fp.AddNulary(Atom(newname, 0));
    taux := leaf.value;
  }

  lemma LeafBound(m: Model, subst: map<string, Atom>, t: nat, target: Atom)
    requires IsModel(m) && StandsFor(m, subst, t, target)
    ensures t < |m.terms|
  {
    assert IsLeaf(m.terms, t);
  }

  lemma Opened(fp: FormulaParser, asub: AtomSubstitutions, newname: string)
    requires asub.Faithful(fp) && newname !in fp.atoms.varnames
    ensures fp.Valid() && fp.atoms.Valid() && fp.atoms.Declared() && asub.Valid()
    ensures Eliminates(asub.before, asub.names, fp.AsModel(), asub.new2old, asub.links)
    ensures Unused(fp.AsModel(), newname) && newname !in asub.new2old && newname !in asub.names
    ensures newname !in asub.before.params && asub.before.params == fp.AsModel().params
    ensures Atom(newname, 0) !in fp.atoms.vars
  {
  }

  // ----- the leaves of the auxiliary variables -----

  /** The leaf of the new name one step on: a new one, or the one that read the old name at ll. */
  method AuxLeaf(fp: FormulaParser, asub: AtomSubstitutions, name: string, step: int, ll: int, newname: string) returns (t: nat)
    requires asub.Faithful(fp) && name in asub.names && Towards(ll, step)
    requires newname in asub.new2old && asub.new2old[newname] == Atom(name, ll - step)
    requires Atom(name, ll) in fp.atoms.vars ==> Atom(newname, step) !in fp.atoms.vars
    modifies fp.otree, fp.atoms`vars, fp.atoms`indices, fp.atoms`nv, fp.atoms`minlag, fp.atoms`maxlead
    ensures asub.Faithful(fp)
    ensures fp.atoms.vars.Keys == old(fp.atoms.vars.Keys) - {Atom(name, ll)} + {Atom(newname, step)}
    ensures StandsFor(fp.AsModel(), asub.new2old, t, Atom(name, ll))
  {
    hide Inverse, IsModel, OperationTree.Shape, Spans, Eliminates, StandsFor, AtomSubstitutions.Faithful, Towards;
    var found := fp.atoms.Index(Atom(name, ll));
    if found == None {
      assert fp.atoms.vars.Keys - {Atom(name, ll)} == fp.atoms.vars.Keys;
      t := NextLeaf(fp, asub, name, step, ll, newname);
    } else {
      t := found.value;
      TurnLeaf(fp, asub, name, step, ll, newname, t);
    }
  }

  method NextLeaf(fp: FormulaParser, asub: AtomSubstitutions, name: string, step: int, ll: int, newname: string) returns (t: nat)
    requires asub.Faithful(fp) && name in asub.names && Towards(ll, step)
    requires newname in asub.new2old && asub.new2old[newname] == Atom(name, ll - step)
    modifies fp.otree, fp.atoms`vars, fp.atoms`indices, fp.atoms`nv, fp.atoms`minlag, fp.atoms`maxlead
    ensures asub.Faithful(fp)
    ensures fp.atoms.vars.Keys == old(fp.atoms.vars.Keys) + {Atom(newname, step)}
    ensures StandsFor(fp.AsModel(), asub.new2old, t, Atom(name, ll))
  {
    hide AtomSubstitutions.Valid, FormulaParser.Valid, Eliminates, NamesKnown, StandsFor;
    NamesApart(fp, asub, name, newname);
    t := AddLeaf(fp, asub, Atom(newname, step));
    LeafStandsFor(fp.AsModel(), asub.new2old, t, name, step, ll, newname);
  }

  lemma MatchedNow(fp: FormulaParser, t: nat, a: Atom)
    requires fp.Valid() && a in fp.atoms.vars && fp.atoms.vars[a] == t
    ensures t in fp.AsModel().atoms && fp.AsModel().atoms[t] == a
  {
  }

  /** The leaf of an atom of a declared name. */
  method AddLeaf(fp: FormulaParser, asub: AtomSubstitutions, a: Atom) returns (t: nat)
    requires asub.Faithful(fp) && a.name in fp.atoms.varnames && InRange(a.ll)
    modifies fp.otree, fp.atoms`vars, fp.atoms`indices, fp.atoms`nv, fp.atoms`minlag, fp.atoms`maxlead
    ensures asub.Faithful(fp) && fp.AsModel().params == old(fp.AsModel().params)
    ensures fp.atoms.vars.Keys == old(fp.atoms.vars.Keys) + {a}
    ensures t in fp.AsModel().atoms && fp.AsModel().atoms[t] == a
  {
    hide Inverse, IsModel, OperationTree.Shape, Eliminates, NamesKnown, DynamicAtoms.Valid, DynamicAtoms.Declared;
    ghost var m0, s0 := fp.AsModel(), fp.atoms.State();
    var leaf := fp.AddNulary(a);
    t := leaf.value;
    MatchedNow(fp, t, a);
    if a !in old(fp.atoms.vars) {
      LeafAdded(asub.before, asub.names, m0, asub.new2old, asub.links, a, fp.AsModel());
    }
    NamesKnownSame(asub.names, asub.new2old, s0, fp.atoms.State());
  }

  method TurnLeaf(fp: FormulaParser, asub: AtomSubstitutions, name: string, step: int, ll: int, newname: string, t: nat)
    requires asub.Faithful(fp) && name in asub.names && Towards(ll, step)
    requires newname in asub.new2old && asub.new2old[newname] == Atom(name, ll - step)
    requires Atom(name, ll) in fp.atoms.vars && fp.atoms.vars[Atom(name, ll)] == t && Atom(newname, step) !in fp.atoms.vars
    modifies fp.atoms`vars, fp.atoms`indices, fp.atoms`nv, fp.atoms`minlag, fp.atoms`maxlead
    ensures asub.Faithful(fp)
    ensures fp.atoms.vars.Keys == old(fp.atoms.vars.Keys) - {Atom(name, ll)} + {Atom(newname, step)}
    ensures StandsFor(fp.AsModel(), asub.new2old, t, Atom(name, ll))
  {
    hide Inverse, IsModel, OperationTree.Shape, Spans, Eliminates, StandsFor, NamesKnown;
    ghost var m0, s0 := fp.AsModel(), fp.atoms.State();
    NamesApart(fp, asub, name, newname);
    Reassign(fp, Atom(name, ll), Atom(newname, step), t);
    LeafTurned(asub.before, asub.names, m0, asub.new2old, asub.links, t, newname, step, fp.AsModel());
    LeafStandsFor(fp.AsModel(), asub.new2old, t, name, step, ll, newname);
    NamesKnownSame(asub.names, asub.new2old, s0, fp.atoms.State());
  }

  /** Takes a leaf from one atom and gives it to another. */
  method Reassign(fp: FormulaParser, a: Atom, b: Atom, t: nat)
    requires fp.Valid() && a in fp.atoms.vars && fp.atoms.vars[a] == t && b !in fp.atoms.vars
    requires InRange(b.ll) && b.name in fp.atoms.varnames
    modifies fp.atoms`vars, fp.atoms`indices, fp.atoms`nv, fp.atoms`minlag, fp.atoms`maxlead
    ensures fp.Valid() && fp.AsModel() == old(fp.AsModel()).(atoms := old(fp.atoms.indices)[t := b])
    ensures fp.atoms.vars.Keys == old(fp.atoms.vars.Keys) - {a} + {b}
  {
    hide IsModel, Reduced, Consed, Incident, Spans;
    ghost var m := fp.AsModel();
    var removed := fp.atoms.UnassignVariable(a, t);
    var ok := fp.atoms.AssignVariable(b, t);
    TurnedModel(m, t, b, fp.AsModel());
  }

  lemma LeafStandsFor(m: Model, subst: map<string, Atom>, t: nat, name: string, step: int, ll: int, newname: string)
    requires t in m.atoms && m.atoms[t] == Atom(newname, step) && Towards(ll, step)
    requires newname in subst && subst[newname] == Atom(name, ll - step)
    ensures StandsFor(m, subst, t, Atom(name, ll))
  {
  }

  lemma NamesApart(fp: FormulaParser, asub: AtomSubstitutions, name: string, newname: string)
    requires asub.Faithful(fp) && name in asub.names && newname in asub.new2old
    ensures name !in asub.new2old && newname in fp.atoms.varnames && name != newname
  {
  }

  lemma TurnedModel(m: Model, t: nat, a: Atom, m': Model)
    requires IsModel(m) && t in m.atoms && m' == m.(atoms := m'.atoms) && m'.atoms == (m.atoms - {t})[t := a]
    ensures IsModel(m') && m' == m.(atoms := m.atoms[t := a])
  {
    assert (m.atoms - {t})[t := a] == m.atoms[t := a];
  }

  // ----- the loop over the leads -----

  /** A lead that the loop from start, with ll to come next, has passed. */
  predicate Passed(l: int, start: int, ll: int, step: int) {
    if step == 1 then start <= l < ll else ll < l <= start
  }

  /** The atoms of a name at the leads passed have been replaced by atoms of its new names. */
  ghost predicate Replaced(k0: set<Atom>, subst0: map<string, Atom>, k1: set<Atom>, subst1: map<string, Atom>,
                           name: string, step: int, start: int, ll: int) {
    && (forall a: Atom :: a in k1 ==> a in k0 || a == Atom(name, start - step) || IsAuxAtom(subst1, a, name, step))
    && (forall a: Atom :: a in k0 ==> a in k1 || (a.name == name && Passed(a.ll, start, ll, step)))
    && (forall a: Atom :: a in k1 && a.name == name ==> !Passed(a.ll, start, ll, step))
    && (forall n: string :: n in subst0 ==> n in subst1 && subst1[n] == subst0[n])
    && (forall n: string :: n in subst1 ==> n in subst0 || subst1[n].name == name)
  }

  predicate IsAuxAtom(subst: map<string, Atom>, a: Atom, name: string, step: int) {
    a.name in subst && subst[a.name].name == name && (a.ll == 0 || a.ll == step)
  }

  /** The new names whose step is taken are those of the leads passed. */
  ghost predicate Clear(k: set<Atom>, subst: map<string, Atom>, name: string, step: int, start: int, ll: int) {
    forall n: string :: n in subst && subst[n].name == name && Atom(n, step) in k ==> Passed(subst[n].ll + step, start, ll, step)
  }

  /** The new name for the next lead has been found, or created with its leaf at time zero. */
  ghost predicate Named(k1: set<Atom>, subst1: map<string, Atom>, k2: set<Atom>, subst2: map<string, Atom>, target: Atom, newname: string) {
    && newname in subst2 && subst2[newname] == target
    && if newname in subst1 then k2 == k1 && subst2 == subst1
       else k2 == k1 + {Atom(newname, 0)} && subst2 == subst1[newname := target] && forall a: Atom :: a in k1 ==> a.name != newname
  }

  lemma NamedReplaced(k0: set<Atom>, subst0: map<string, Atom>, k1: set<Atom>, subst1: map<string, Atom>,
                      name: string, step: int, start: int, ll: int, newname: string, k2: set<Atom>, subst2: map<string, Atom>)
    requires Replaced(k0, subst0, k1, subst1, name, step, start, ll) && Clear(k1, subst1, name, step, start, ll)
    requires Named(k1, subst1, k2, subst2, Atom(name, ll - step), newname) && name !in subst2 && (step == 1 || step == -1)
    ensures Replaced(k0, subst0, k2, subst2, name, step, start, ll) && Clear(k2, subst2, name, step, start, ll)
    ensures Atom(newname, step) !in k2
  {
    if newname !in subst1 {
      assert forall n: string :: n in subst1 ==> n in subst2 && subst2[n] == subst1[n];
      assert forall a: Atom :: a in k2 ==> a in k1 || a == Atom(newname, 0);
      assert IsAuxAtom(subst2, Atom(newname, 0), name, step);
    }
  }

  lemma TurnedReplaced(k0: set<Atom>, subst0: map<string, Atom>, k: set<Atom>, subst: map<string, Atom>,
                       name: string, step: int, start: int, ll: int, newname: string, k': set<Atom>)
    requires Replaced(k0, subst0, k, subst, name, step, start, ll) && Clear(k, subst, name, step, start, ll)
    requires newname in subst && subst[newname] == Atom(name, ll - step) && name !in subst && (step == 1 || step == -1)
    requires Passed(start, start, ll, step) || ll == start
    requires k' == k - {Atom(name, ll)} + {Atom(newname, step)}
    ensures Replaced(k0, subst0, k', subst, name, step, start, ll + step) && Clear(k', subst, name, step, start, ll + step)
  {
    hide IsAuxAtom;
    assert IsAuxAtom(subst, Atom(newname, step), name, step) by { AuxAtomIs(subst, newname, name, step); }
    assert Passed(ll, start, ll + step, step);
    assert forall l: int :: Passed(l, start, ll + step, step) <==> Passed(l, start, ll, step) || l == ll;
    assert forall a: Atom :: a in k' ==> a in k || a == Atom(newname, step);
    assert forall a: Atom :: a in k ==> a in k' || a == Atom(name, ll);
  }

  lemma AuxAtomIs(subst: map<string, Atom>, newname: string, name: string, step: int)
    requires newname in subst && subst[newname].name == name
    ensures IsAuxAtom(subst, Atom(newname, step), name, step)
  {
  }

  /** The loop is at lead ll. */
  ghost predicate AtLead(fp: FormulaParser, asub: AtomSubstitutions, k0: set<Atom>, subst0: map<string, Atom>,
                         name: string, step: int, start: int, ll: int)
    reads fp, fp.otree, fp.atoms, asub
  {
    && asub.Faithful(fp) && name in asub.names && name !in fp.AsModel().params
    && Towards(ll, step) && (Passed(start, start, ll, step) || ll == start)
    && Replaced(k0, subst0, fp.atoms.vars.Keys, asub.new2old, name, step, start, ll)
    && Clear(fp.atoms.vars.Keys, asub.new2old, name, step, start, ll)
  }

  /** One turn of the loop: the auxiliary variable for the lead before ll, and the atom that replaces name(ll). */
  method MakeAuxVariable(fp: FormulaParser, asub: AtomSubstitutions, name: string, step: int, ll: int, tprev: nat,
                         ghost k0: set<Atom>, ghost subst0: map<string, Atom>, ghost start: int) returns (t: nat)
    requires AtLead(fp, asub, k0, subst0, name, step, start, ll)
    requires StandsFor(fp.AsModel(), asub.new2old, tprev, Atom(name, ll - step))
    modifies fp`formulas, fp.otree, fp.atoms, asub
    ensures AtLead(fp, asub, k0, subst0, name, step, start, ll + step) && asub.names == old(asub.names) && asub.before == old(asub.before)
    ensures StandsFor(fp.AsModel(), asub.new2old, t, Atom(name, ll)) && fp.atoms.exovars == old(fp.atoms.exovars)
    ensures SameOldEndos(asub.names, old(fp.atoms.endovars), fp.atoms.endovars)
  {
    hide StandsFor, Replaced, Clear, AtomSubstitutions.Valid, FormulaParser.Valid, Eliminates, Passed;
    ghost var k1, subst1 := fp.atoms.vars.Keys, asub.new2old;
    ghost var s1 := fp.atoms.State();
    NamesOfFaithful(fp, asub);
    var newname := AuxName(fp, asub, name, ll - step, tprev);
    ghost var k2, subst2 := fp.atoms.vars.Keys, asub.new2old;
    NamedByName(s1, subst1, fp.atoms.State(), subst2, name, ll - step, newname);
    OldEndosByName(asub.names, s1, subst1, fp.atoms.State(), subst2, name, ll - step, newname);
    NamesApart(fp, asub, name, newname);
    NamedReplaced(k0, subst0, k1, subst1, name, step, start, ll, newname, k2, subst2);
    t := AuxLeaf(fp, asub, name, step, ll, newname);
    TurnedReplaced(k0, subst0, k2, subst2, name, step, start, ll, newname, fp.atoms.vars.Keys);
    NextTowards(start, ll, step);
  }

  lemma NamesOfFaithful(fp: FormulaParser, asub: AtomSubstitutions)
    requires asub.Faithful(fp)
    ensures forall a: Atom :: a in fp.atoms.vars ==> a.name in fp.atoms.varnames
    ensures asub.names <= fp.atoms.varnames
  {
  }

  /** The same old names are endogenous. */
  ghost predicate SameOldEndos(names: set<string>, e0: seq<string>, e1: seq<string>) {
    forall n: string :: n in names ==> (n in e0 <==> n in e1)
  }

  lemma SameOldEndosSelf(names: set<string>, e: seq<string>)
    ensures SameOldEndos(names, e, e)
  {
  }

  lemma SameOldEndosTrans(names: set<string>, e0: seq<string>, e1: seq<string>, e2: seq<string>)
    requires SameOldEndos(names, e0, e1) && SameOldEndos(names, e1, e2)
    ensures SameOldEndos(names, e0, e2)
  {
  }

  lemma OldEndosByName(names: set<string>, s1: AtomsState, subst1: map<string, Atom>, s2: AtomsState, subst2: map<string, Atom>,
                       name: string, shift: int, newname: string)
    requires NameAdded(s1, subst1, s2, subst2, name, shift, newname) && names <= s1.varnames
    ensures SameOldEndos(names, s1.endovars, s2.endovars)
  {
  }

  lemma NamedByName(s1: AtomsState, subst1: map<string, Atom>, s2: AtomsState, subst2: map<string, Atom>,
                    name: string, shift: int, newname: string)
    requires NameAdded(s1, subst1, s2, subst2, name, shift, newname)
    requires forall a: Atom :: a in s1.vars ==> a.name in s1.varnames
    ensures Named(s1.vars.Keys, subst1, s2.vars.Keys, subst2, Atom(name, shift), newname)
  {
  }

  lemma NextTowards(start: int, ll: int, step: int)
    requires Towards(ll, step) && (Passed(start, start, ll, step) || ll == start)
    ensures Towards(ll + step, step) && Passed(start, start, ll + step, step)
  {
  }

  /** The lead to stop at: not beyond the name's own leads. */
  function Limit(step: int, limitLead: int, mlead: int, mlag: int): int {
    if step == -1 then Max(limitLead, mlag) else Min(limitLead, mlead)
  }

  /** Between start and the given limit, both included. */
  predicate Within(l: int, start: int, limitLead: int, step: int) {
    if step == 1 then start <= l <= limitLead else limitLead <= l <= start
  }

  /** What eliminating the leads of a name leaves behind. */
  ghost predicate Eliminated(k0: set<Atom>, subst0: map<string, Atom>, k1: set<Atom>, subst1: map<string, Atom>,
                             name: string, step: int, start: int, limitLead: int) {
    && (exists stop: int :: Replaced(k0, subst0, k1, subst1, name, step, start, stop) && Towards(stop, step))
    && (forall a: Atom :: a in k1 && a.name == name ==> !Within(a.ll, start, limitLead, step))
  }

  /** The new names of a name have no atom one step on. */
  ghost predicate Untouched(k: set<Atom>, subst: map<string, Atom>, name: string, step: int) {
    forall n: string :: n in subst && subst[n].name == name ==> Atom(n, step) !in k
  }

  /** Eliminates the leads of a name from start to the limit; fails exactly when the step is not one
      lead or start is beyond the limit. */
  method MakeAuxVariables(fp: FormulaParser, asub: AtomSubstitutions, name: string, step: int, start: int, limitLead: int) returns (ok: bool)
    requires asub.Faithful(fp) && name in asub.names && name !in fp.AsModel().params
    requires step == 1 || step == -1 ==> Towards(start, step) && InRange(start - step)
    requires Untouched(fp.atoms.vars.Keys, asub.new2old, name, step)
    modifies fp`formulas, fp.otree, fp.atoms, asub
    ensures asub.Faithful(fp) && asub.names == old(asub.names) && asub.before == old(asub.before)
    ensures fp.atoms.exovars == old(fp.atoms.exovars) && SameOldEndos(asub.names, old(fp.atoms.endovars), fp.atoms.endovars)
    ensures ok <==> (step == 1 || step == -1) && step * start <= step * limitLead
    ensures !ok ==> fp.AsModel() == old(fp.AsModel()) && fp.atoms.State() == old(fp.atoms.State()) && asub.new2old == old(asub.new2old)
    ensures ok ==> Eliminated(old(fp.atoms.vars.Keys), old(asub.new2old), fp.atoms.vars.Keys, asub.new2old, name, step, start, limitLead)
  {
    if !(step == 1 || step == -1) {
      return false;
    }
    if step * start > step * limitLead {
      return false;
    }
    ok := true;
    hide StandsFor, Replaced, AtomSubstitutions.Valid, FormulaParser.Valid, Eliminates, Passed, Spans, Clear;
    ghost var k0, subst0 := fp.atoms.vars.Keys, asub.new2old;
    FaithfulAtoms(fp, asub);
    var mlead, mlag := fp.atoms.VarspanOfName(name);
    SpanOfName(fp.atoms, name, mlag, mlead);
    StepTimes(step, start);
    StepTimes(step, limitLead);
    var limit := Limit(step, limitLead, mlead, mlag);
    var tprev := FirstLeaf(fp, asub, name, step, start);
    ghost var stop := LeadLoop(fp, asub, name, step, start, limit, tprev, k0, subst0);
    AfterLoop(fp, asub, k0, subst0, name, step, start, limitLead, mlead, mlag, stop);
  }

  /** The loop proper. */
  method LeadLoop(fp: FormulaParser, asub: AtomSubstitutions, name: string, step: int, start: int, limit: int, first: nat,
                  ghost k0: set<Atom>, ghost subst0: map<string, Atom>) returns (ghost stop: int)
    requires AtLead(fp, asub, k0, subst0, name, step, start, start) && (step == 1 || step == -1)
    requires StandsFor(fp.AsModel(), asub.new2old, first, Atom(name, start - step))
    modifies fp`formulas, fp.otree, fp.atoms, asub
    ensures AtLead(fp, asub, k0, subst0, name, step, start, stop) && asub.names == old(asub.names) && asub.before == old(asub.before)
    ensures fp.atoms.exovars == old(fp.atoms.exovars) && SameOldEndos(asub.names, old(fp.atoms.endovars), fp.atoms.endovars)
    ensures Past(stop, start, limit, step)
  {
    hide *;
    SameOldEndosSelf(asub.names, fp.atoms.endovars);
    var tprev, ll, more := first, start, true;
    while more
      invariant AtLead(fp, asub, k0, subst0, name, step, start, ll) && asub.names == old(asub.names) && asub.before == old(asub.before)
      invariant fp.atoms.exovars == old(fp.atoms.exovars) && SameOldEndos(asub.names, old(fp.atoms.endovars), fp.atoms.endovars)
      invariant if more then ll == start || Ahead(ll, start, step) else Past(ll, start, limit, step)
      invariant StandsFor(fp.AsModel(), asub.new2old, tprev, Atom(name, ll - step))
      decreases more, Distance(ll, limit, step)
    {
      ghost var endovars := fp.atoms.endovars;
      tprev := MakeAuxVariable(fp, asub, name, step, ll, tprev, k0, subst0, start);
      SameOldEndosTrans(asub.names, old(fp.atoms.endovars), endovars, fp.atoms.endovars);
      NextLead(start, ll, step, limit);
      ll := ll + step;
      more := step * ll <= step * limit;
    }
    stop := ll;
  }

  /** Beyond start in the direction of the step. */
  predicate Ahead(ll: int, start: int, step: int) {
    if step == 1 then start < ll else ll < start
  }

  predicate Past(ll: int, start: int, limit: int, step: int) {
    Ahead(ll, start, step) && Ahead(ll, limit, step)
  }

  function Distance(ll: int, limit: int, step: int): nat {
    Max(0, (if step == 1 then limit - ll else ll - limit) + 1)
  }

  lemma NextLead(start: int, ll: int, step: int, limit: int)
    requires (step == 1 || step == -1) && (ll == start || Ahead(ll, start, step))
    ensures Ahead(ll + step, start, step)
    ensures step * (ll + step) <= step * limit <==> !Past(ll + step, start, limit, step)
    ensures step * (ll + step) <= step * limit ==> Distance(ll + step, limit, step) < Distance(ll, limit, step)
  {
    StepTimes(step, ll + step);
    StepTimes(step, limit);
  }

  lemma AfterLoop(fp: FormulaParser, asub: AtomSubstitutions, k0: set<Atom>, subst0: map<string, Atom>, name: string, step: int,
                  start: int, limitLead: int, mlead: int, mlag: int, stop: int)
    requires AtLead(fp, asub, k0, subst0, name, step, start, stop) && Past(stop, start, Limit(step, limitLead, mlead, mlag), step)
    requires forall a: Atom :: a in k0 && a.name == name ==> mlag <= a.ll <= mlead
    ensures asub.Faithful(fp)
    ensures Eliminated(k0, subst0, fp.atoms.vars.Keys, asub.new2old, name, step, start, limitLead)
  {
    hide Replaced;
    LeadsAfter(fp, asub, k0, subst0, name, step, start, stop);
    LoopEnds(k0, subst0, fp.atoms.vars.Keys, asub.new2old, name, step, start, limitLead, mlead, mlag, stop);
  }

  lemma StepTimes(step: int, x: int)
    requires step == 1 || step == -1
    ensures step * x == if step == 1 then x else -x
  {
  }

  lemma LeadsAfter(fp: FormulaParser, asub: AtomSubstitutions, k0: set<Atom>, subst0: map<string, Atom>,
                   name: string, step: int, start: int, ll: int)
    requires AtLead(fp, asub, k0, subst0, name, step, start, ll)
    ensures ll == start || (if step == 1 then start < ll else ll < start)
    ensures Replaced(k0, subst0, fp.atoms.vars.Keys, asub.new2old, name, step, start, ll)
    ensures Towards(ll, step) && name !in asub.new2old && asub.Faithful(fp)
  {
  }

  lemma LoopEnds(k0: set<Atom>, subst0: map<string, Atom>, k1: set<Atom>, subst1: map<string, Atom>,
                 name: string, step: int, start: int, limitLead: int, mlead: int, mlag: int, ll: int)
    requires Replaced(k0, subst0, k1, subst1, name, step, start, ll) && Towards(ll, step) && name !in subst1
    requires if step == 1 then start < ll else ll < start
    requires !Within(ll, start, Limit(step, limitLead, mlead, mlag), step)
    requires forall a: Atom :: a in k0 && a.name == name ==> mlag <= a.ll <= mlead
    ensures Eliminated(k0, subst0, k1, subst1, name, step, start, limitLead)
  {
    forall a: Atom | a in k1 && a.name == name
      ensures !Within(a.ll, start, limitLead, step)
    {
      assert !Passed(a.ll, start, ll, step);
    }
  }

  /** The leaf of the name one step before start. */
  method FirstLeaf(fp: FormulaParser, asub: AtomSubstitutions, name: string, step: int, start: int) returns (tprev: nat)
    requires asub.Faithful(fp) && name in asub.names && name !in fp.AsModel().params
    requires Towards(start, step) && InRange(start - step) && Untouched(fp.atoms.vars.Keys, asub.new2old, name, step)
    modifies fp.otree, fp.atoms`vars, fp.atoms`indices, fp.atoms`nv, fp.atoms`minlag, fp.atoms`maxlead
    ensures AtLead(fp, asub, old(fp.atoms.vars.Keys), asub.new2old, name, step, start, start)
    ensures StandsFor(fp.AsModel(), asub.new2old, tprev, Atom(name, start - step))
  {
    hide Inverse, IsModel, OperationTree.Shape, Spans, Eliminates, NamesKnown, Clear, Replaced, Untouched, AtomSubstitutions.Faithful;
    ghost var k0 := fp.atoms.vars.Keys;
    OldName(fp, asub, name);
    tprev := OldLeaf(fp, asub, name, start - step);
    AtStart(k0, fp.atoms.vars.Keys, asub.new2old, name, step, start);
  }

  /** The leaf of an old name at some lead, added when there is none. */
  method OldLeaf(fp: FormulaParser, asub: AtomSubstitutions, name: string, ll: int) returns (t: nat)
    requires asub.Faithful(fp) && name in asub.names && InRange(ll)
    modifies fp.otree, fp.atoms`vars, fp.atoms`indices, fp.atoms`nv, fp.atoms`minlag, fp.atoms`maxlead
    ensures asub.Faithful(fp) && fp.AsModel().params == old(fp.AsModel().params)
    ensures fp.atoms.vars.Keys == old(fp.atoms.vars.Keys) + {Atom(name, ll)}
    ensures t in fp.AsModel().atoms && fp.AsModel().atoms[t] == Atom(name, ll)
  {
    hide AtomSubstitutions.Valid, FormulaParser.Valid, Eliminates, NamesKnown;
    OldName(fp, asub, name);
    var found := fp.atoms.Index(Atom(name, ll));
    if found == None {
      t := AddLeaf(fp, asub, Atom(name, ll));
    } else {
      t := found.value;
      IndexMatches(fp, asub, Atom(name, ll));
      assert fp.atoms.vars.Keys + {Atom(name, ll)} == fp.atoms.vars.Keys;
    }
  }

  lemma IndexMatches(fp: FormulaParser, asub: AtomSubstitutions, a: Atom)
    requires asub.Faithful(fp) && a in fp.atoms.vars
    ensures fp.atoms.vars[a] in fp.AsModel().atoms && fp.AsModel().atoms[fp.atoms.vars[a]] == a
  {
  }

  lemma OldName(fp: FormulaParser, asub: AtomSubstitutions, name: string)
    requires asub.Faithful(fp) && name in asub.names
    ensures name !in asub.new2old && name in fp.atoms.varnames
  {
  }

  lemma AtStart(k0: set<Atom>, k1: set<Atom>, subst: map<string, Atom>, name: string, step: int, start: int)
    requires k1 == k0 + {Atom(name, start - step)}
    requires Untouched(k0, subst, name, step) && name !in subst && (step == 1 || step == -1)
    ensures Replaced(k0, subst, k1, subst, name, step, start, start) && Clear(k1, subst, name, step, start, start)
  {
  }

  lemma SpanOfName(atoms: DynamicAtoms, name: string, mlag: int, mlead: int)
    requires Spans(atoms.AtomsOf({name}), mlag, mlead)
    ensures forall a: Atom :: a in atoms.vars.Keys && a.name == name ==> mlag <= a.ll <= mlead
  {
    assert forall a: Atom :: a in atoms.vars && a.name == name ==> a in atoms.AtomsOf({name});
  }

  lemma FaithfulAtoms(fp: FormulaParser, asub: AtomSubstitutions)
    requires asub.Faithful(fp)
    ensures fp.atoms.Valid()
  {
  }
}
