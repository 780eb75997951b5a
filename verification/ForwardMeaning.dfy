/** Why replacing a term with large leads by a chain of auxiliary variables keeps the solutions. */
module ForwardMeaning {
  import opened Wrappers
  import opened Jets
  import opened Terms
  import opened OperationTrees
  import opened TreeMeaning
  import opened DynamicAtomsModule
  import opened ModelMeaning
  import opened LagElimination
  import opened ModelSteps

  /** The equation of an auxiliary variable: its leaf at time zero and the term it equals. */
  datatype Def = Def(name: string, aux: nat, def: nat)

  ghost predicate IsDef(m: Model, d: Def, f: nat) {
    && d.aux in m.atoms && m.atoms[d.aux] == Atom(d.name, 0) && d.name !in m.params
    && d.def < |m.terms| && StoredAs(m.terms, MINUS, d.aux, d.def, f)
  }

  lemma DifferenceValue(F: Funs, terms: seq<Operation>, p: Point, a: nat, e: nat, f: nat)
    requires WellFormed(terms) && NUM_CONSTANTS <= a < |terms| && e < |terms| && StoredAs(terms, MINUS, a, e, f)
    ensures Eval(F, terms, p, f).x == JetBinary(F, MINUS, Eval(F, terms, p, a), Eval(F, terms, p, e)).x
  {
    if QuickBinary(MINUS, a, e) == None {
      StoredBinary(F, terms, p, MINUS, a, e, f);
    }
  }

  /** The equation holds exactly when the term is defined and the variable equals it. */
  lemma DefHolds(F: Funs, m: Model, d: Def, f: nat, path: Path, s: int)
    requires IsModel(m) && IsDef(m, d, f)
    ensures TermValue(F, m, path, s, f) == Some(0.0) <==> TermValue(F, m, path, s, d.def) == Some(path(d.name, s))
  {
    LeafEval(F, m, path, s, d.aux);
    assert IsLeaf(m.terms, d.aux);
    DifferenceValue(F, m.terms, PointAt(m, path, s), d.aux, d.def, f);
  }

  // ----- the chain of auxiliary variables -----

  /** The auxiliary equations added to m0: the first variable equals the term lagt, each other one the lead of the one before. */
  ghost predicate Chain(m0: Model, m1: Model, lagt: nat, defs: seq<Def>) {
    && IsModel(m0) && IsModel(m1) && GrowsTo(m0, m1)
    && |m1.formulas| == |m0.formulas| + |defs| && lagt < |m1.terms|
    && (forall k: nat :: k < |defs| ==> IsDef(m1, defs[k], m1.formulas[|m0.formulas| + k]))
    && (forall k: nat :: k < |defs| ==> LinksTo(m1, lagt, defs, k))
  }

  ghost predicate LinksTo(m: Model, lagt: nat, defs: seq<Def>, k: nat)
    requires k < |defs|
  {
    if k == 0 then defs[k].def == lagt else defs[k].def in m.atoms && m.atoms[defs[k].def] == Atom(defs[k - 1].name, 1)
  }

  /** The names of the chain are new and different. */
  ghost predicate FreshChain(m0: Model, names: set<string>, defs: seq<Def>) {
    && (forall k: nat :: k < |defs| ==> defs[k].name !in names && defs[k].name !in m0.params)
    && (forall j: nat, k: nat :: j < k < |defs| ==> defs[j].name != defs[k].name)
  }

  ghost function ChainNames(defs: seq<Def>): set<string> {
    set k: nat | k < |defs| :: defs[k].name
  }

  /** The auxiliary equations hold. */
  ghost predicate ChainHolds(F: Funs, m0: Model, m1: Model, path: Path)
    requires IsModel(m1)
  {
    forall i: nat, s: int :: |m0.formulas| <= i < |m1.formulas| ==> HoldsAt(F, m1, path, i, s)
  }

  /** The k-th auxiliary variable reads the term k periods ahead. */
  ghost predicate ReadsAhead(F: Funs, m: Model, lagt: nat, path: Path, d: Def, k: nat, s: int)
    requires IsModel(m) && lagt < |m.terms|
  {
    TermValue(F, m, path, s + k, lagt) == Some(path(d.name, s))
  }

  /** What the k-th auxiliary equation says. */
  lemma ChainStep(F: Funs, m0: Model, m1: Model, lagt: nat, defs: seq<Def>, path: Path, k: nat, s: int)
    requires Chain(m0, m1, lagt, defs) && k < |defs|
    ensures HoldsAt(F, m1, path, |m0.formulas| + k, s) <==>
      if k == 0 then ReadsAhead(F, m1, lagt, path, defs[k], k, s) else path(defs[k].name, s) == path(defs[k - 1].name, s + 1)
  {
    hide StoredAs, IsModel, TermValue, GrowsTo;
    var i := |m0.formulas| + k;
    assert IsDef(m1, defs[k], m1.formulas[i]);
    DefHolds(F, m1, defs[k], m1.formulas[i], path, s);
    assert LinksTo(m1, lagt, defs, k);
    if k > 0 {
      assert IsDef(m1, defs[k - 1], m1.formulas[i - 1]);
      LeafTermValue(F, m1, path, s, defs[k].def);
    }
  }

  lemma LeafTermValue(F: Funs, m: Model, path: Path, s: int, t: nat)
    requires IsModel(m) && t in m.atoms
    ensures t < |m.terms| && TermValue(F, m, path, s, t) == Some(AtomValue(path, m.params, m.atoms[t], s))
  {
    LeafEval(F, m, path, s, t);
  }

  lemma {:induction false} ChainReads(F: Funs, m0: Model, m1: Model, lagt: nat, defs: seq<Def>, path: Path, k: nat, s: int)
    requires Chain(m0, m1, lagt, defs) && ChainHolds(F, m0, m1, path) && k < |defs|
    ensures ReadsAhead(F, m1, lagt, path, defs[k], k, s)
    decreases k
  {
    hide IsDef, LinksTo, IsModel, TermValue, GrowsTo, HoldsAt;
    assert HoldsAt(F, m1, path, |m0.formulas| + k, s);
    ChainStep(F, m0, m1, lagt, defs, path, k, s);
    if k > 0 {
      ChainReads(F, m0, m1, lagt, defs, path, k - 1, s + 1);
      assert s + 1 + (k - 1) == s + k;
    }
  }

  lemma ChainFollows(F: Funs, m0: Model, m1: Model, lagt: nat, defs: seq<Def>, path: Path, k: nat, s: int)
    requires Chain(m0, m1, lagt, defs) && k < |defs|
    requires ReadsAhead(F, m1, lagt, path, defs[k], k, s)
    requires k > 0 ==> ReadsAhead(F, m1, lagt, path, defs[k - 1], k - 1, s + 1)
    ensures HoldsAt(F, m1, path, |m0.formulas| + k, s)
  {
    hide IsDef, LinksTo, IsModel, TermValue, GrowsTo, HoldsAt;
    ChainStep(F, m0, m1, lagt, defs, path, k, s);
    if k > 0 {
      assert s + 1 + (k - 1) == s + k;
    }
  }

  // ----- the extension to the auxiliary variables -----

  function PlaceOf(defs: seq<Def>, n: string): Option<nat> {
    if |defs| == 0 then None
    else if defs[|defs| - 1].name == n then Some(|defs| - 1)
    else PlaceOf(defs[..|defs| - 1], n)
  }

  lemma {:induction false} PlaceIs(defs: seq<Def>, n: string)
    ensures match PlaceOf(defs, n)
            case Some(k) => k < |defs| && defs[k].name == n
            case None => forall k: nat :: k < |defs| ==> defs[k].name != n
    decreases |defs|
  {
    if |defs| > 0 && defs[|defs| - 1].name != n {
      PlaceIs(defs[..|defs| - 1], n);
      if PlaceOf(defs, n) == None {
        forall k: nat | k < |defs|
          ensures defs[k].name != n
        {
          if k < |defs| - 1 { assert defs[..|defs| - 1][k] == defs[k]; }
        }
      }
    }
  }

  ghost function ChainPath(F: Funs, m: Model, lagt: nat, defs: seq<Def>, path: Path): Path
    requires IsModel(m) && lagt < |m.terms|
  {
    (n: string, s: int) => ChainValue(F, m, lagt, defs, path, n, s)
  }

  ghost function ChainValue(F: Funs, m: Model, lagt: nat, defs: seq<Def>, path: Path, n: string, s: int): real
    requires IsModel(m) && lagt < |m.terms|
  {
    match PlaceOf(defs, n)
    case None => path(n, s)
    case Some(k) =>
      match TermValue(F, m, path, s + k, lagt)
      case Some(v) => v
      case None => 0.0
  }

  /** All leaves of the term have names from this set. */
  ghost predicate ReadsNames(m: Model, names: set<string>, t: nat)
    requires IsModel(m) && t < |m.terms|
  {
    forall l: nat :: l in Leaves(m.terms, t) && l in m.atoms ==> m.atoms[l].name in names
  }

  /** Where the old equations hold, the term is defined. */
  ghost predicate DefinedWhere(F: Funs, m0: Model, m1: Model, lagt: nat)
    requires IsModel(m0) && IsModel(m1) && lagt < |m1.terms|
  {
    forall x: Path, s: int :: Solves(F, m0, x) ==> TermValue(F, m1, x, s, lagt).Some?
  }

  lemma ChainExtends(F: Funs, m0: Model, names: set<string>, m1: Model, lagt: nat, defs: seq<Def>, x: Path)
    requires Chain(m0, m1, lagt, defs) && FreshChain(m0, names, defs) && NamesIn(m0, names) && ReadsNames(m1, names, lagt)
    requires DefinedWhere(F, m0, m1, lagt) && Solves(F, m0, x)
    ensures ExtendsTo(F, names, m1, x)
  {
    hide Chain, FreshChain, Solves, IsModel, HoldsAt, TermValue, ReadsNames, NamesIn;
    ChainModels(m0, m1, lagt, defs);
    var y := ChainPath(F, m1, lagt, defs, x);
    ChainPathAgrees(F, m0, names, m1, lagt, defs, x);
    SolvesNames(F, m0, names, x, y);
    forall k: nat, s: int | k < |defs|
      ensures ReadsAhead(F, m1, lagt, y, defs[k], k, s)
    {
      ChainPathReads(F, m0, names, m1, lagt, defs, x, k, s);
    }
    forall i: nat, s: int | |m0.formulas| <= i < |m1.formulas|
      ensures HoldsAt(F, m1, y, i, s)
    {
      ChainFollows(F, m0, m1, lagt, defs, y, i - |m0.formulas|, s);
    }
    GrownSolves(F, m0, m1, y);
  }

  lemma SolvesNames(F: Funs, m: Model, names: set<string>, x: Path, y: Path)
    requires IsModel(m) && NamesIn(m, names) && AgreeOn(names, x, y) && Solves(F, m, x)
    ensures Solves(F, m, y)
  {
    hide Solves;
    SolvesAgrees(F, m, names, x, y);
  }

  lemma ChainPathAgrees(F: Funs, m0: Model, names: set<string>, m1: Model, lagt: nat, defs: seq<Def>, x: Path)
    requires IsModel(m1) && lagt < |m1.terms| && FreshChain(m0, names, defs)
    ensures AgreeOn(names, x, ChainPath(F, m1, lagt, defs, x))
  {
    hide IsModel, TermValue;
    var y := ChainPath(F, m1, lagt, defs, x);
    forall n: string, s: int | n in names
      ensures x(n, s) == y(n, s)
    {
      PlaceIs(defs, n);
    }
  }

  lemma ChainPathReads(F: Funs, m0: Model, names: set<string>, m1: Model, lagt: nat, defs: seq<Def>, x: Path, k: nat, s: int)
    requires IsModel(m0) && IsModel(m1) && lagt < |m1.terms| && FreshChain(m0, names, defs) && ReadsNames(m1, names, lagt) && k < |defs|
    requires DefinedWhere(F, m0, m1, lagt) && Solves(F, m0, x)
    ensures ReadsAhead(F, m1, lagt, ChainPath(F, m1, lagt, defs, x), defs[k], k, s)
  {
    hide IsModel, TermValue, Solves, AgreeOn;
    PlaceIs(defs, defs[k].name);
    ChainPathAgrees(F, m0, names, m1, lagt, defs, x);
    AgreeValue(F, m1, names, x, ChainPath(F, m1, lagt, defs, x), s + k, lagt);
  }

  lemma ChainDetermines(F: Funs, m0: Model, names: set<string>, m1: Model, lagt: nat, defs: seq<Def>, x: Path, y: Path)
    requires Chain(m0, m1, lagt, defs) && ReadsNames(m1, names, lagt)
    requires Solves(F, m1, x) && Solves(F, m1, y) && AgreeOn(names, x, y)
    ensures AgreeOn(names + ChainNames(defs), x, y)
  {
    hide Chain, IsModel, TermValue;
    ChainModels(m0, m1, lagt, defs);
    assert ChainHolds(F, m0, m1, x) && ChainHolds(F, m0, m1, y);
    forall n: string, s: int | n in names + ChainNames(defs)
      ensures x(n, s) == y(n, s)
    {
      if n !in names {
        var k: nat :| k < |defs| && defs[k].name == n;
        ChainReads(F, m0, m1, lagt, defs, x, k, s);
        ChainReads(F, m0, m1, lagt, defs, y, k, s);
        AgreeValue(F, m1, names, x, y, s + k, lagt);
      }
    }
  }

  /** Adding the chain adds determined variables and nothing else. */
  lemma ChainConservative(m0: Model, names: set<string>, m1: Model, lagt: nat, defs: seq<Def>)
    requires Chain(m0, m1, lagt, defs) && FreshChain(m0, names, defs) && NamesIn(m0, names) && ReadsNames(m1, names, lagt)
    requires forall F: Funs :: Lawful(F) ==> DefinedWhere(F, m0, m1, lagt)
    ensures Conservative(m0, names, m1, names + ChainNames(defs))
  {
    hide Chain, FreshChain, NamesIn, ReadsNames, Solves, AgreeOn, IsModel, ExtendsTo, ChainNames, DefinedWhere;
    ChainModels(m0, m1, lagt, defs);
    forall F: Funs | Lawful(F)
      ensures Restricts(F, m0, m1) && Extends(F, m0, names, m1) && Determines(F, names, m1, names + ChainNames(defs))
    {
      assert DefinedWhere(F, m0, m1, lagt);
      forall x: Path | Solves(F, m1, x)
        ensures Solves(F, m0, x)
      {
        GrownSolves(F, m0, m1, x);
      }
      forall x: Path | Solves(F, m0, x)
        ensures ExtendsTo(F, names, m1, x)
      {
        ChainExtends(F, m0, names, m1, lagt, defs, x);
      }
      forall x: Path, y: Path | Solves(F, m1, x) && Solves(F, m1, y) && AgreeOn(names, x, y)
        ensures AgreeOn(names + ChainNames(defs), x, y)
      {
        ChainDetermines(F, m0, names, m1, lagt, defs, x, y);
      }
    }
  }

  lemma ChainModels(m0: Model, m1: Model, lagt: nat, defs: seq<Def>)
    requires Chain(m0, m1, lagt, defs)
    ensures IsModel(m0) && IsModel(m1) && GrowsTo(m0, m1) && lagt < |m1.terms| && |m1.formulas| == |m0.formulas| + |defs|
  {
  }

  // ----- replacing the term -----

  /** Term t is term n or one of the terms it is built from. */
  ghost predicate Reaches(terms: seq<Operation>, n: nat, t: nat)
    requires WellFormed(terms) && n < |terms|
    decreases n
  {
    assert OperandsBelow(terms[n], n);
    n == t ||
    match terms[n]
    case Nulary => false
    case Unary(_, a) => Reaches(terms, a, t)
    case Binary(_, a, b) => Reaches(terms, a, t) || Reaches(terms, b, t)
  }

  lemma {:induction false} ReachedLeaves(terms: seq<Operation>, n: nat, t: nat)
    requires WellFormed(terms) && n < |terms| && Reaches(terms, n, t)
    ensures t < |terms| && Leaves(terms, t) <= Leaves(terms, n)
    decreases n
  {
    assert OperandsBelow(terms[n], n);
    if n != t {
      match terms[n]
      case Nulary =>
      case Unary(_, a) => ReachedLeaves(terms, a, t);
      case Binary(_, a, b) => if Reaches(terms, a, t) { ReachedLeaves(terms, a, t); } else { ReachedLeaves(terms, b, t); }
    }
  }

  /** A defined term is built from defined terms. */
  lemma {:induction false} ReachedDefined(F: Funs, terms: seq<Operation>, p: Point, n: nat, t: nat)
    requires WellFormed(terms) && n < |terms| && Reaches(terms, n, t) && Eval(F, terms, p, n).x.Some?
    ensures t < |terms| && Eval(F, terms, p, t).x.Some?
    decreases n
  {
    assert OperandsBelow(terms[n], n);
    if n != t {
      match terms[n]
      case Nulary =>
      case Unary(_, a) => ReachedDefined(F, terms, p, a, t);
      case Binary(_, a, b) => if Reaches(terms, a, t) { ReachedDefined(F, terms, p, a, t); } else { ReachedDefined(F, terms, p, b, t); }
    }
  }

  lemma StillWellFormed(terms: seq<Operation>, t: nat)
    requires WellFormed(terms) && t < |terms|
    ensures WellFormed(terms[t := Nulary])
  {
    var fewer := terms[t := Nulary];
    forall n | 0 <= n < |fewer|
      ensures OperandsBelow(fewer[n], n)
    {
      assert OperandsBelow(terms[n], n);
    }
  }

  /** Values of jets agree. */
  ghost predicate SameValues(F: Funs, p: Point, q: Point, leaves: set<nat>) {
    forall l: nat :: l in leaves ==> LeafJet(F, p, l).x == LeafJet(F, q, l).x
  }

  /** A term that does not reach t has the same value when t has become a leaf. */
  lemma {:induction false} UntouchedValue(F: Funs, terms: seq<Operation>, t: nat, p: Point, q: Point, n: nat)
    requires WellFormed(terms) && t < |terms| && n < |terms| && WellFormed(terms[t := Nulary])
    requires !Reaches(terms, n, t) && SameValues(F, p, q, Leaves(terms, n))
    ensures Eval(F, terms[t := Nulary], q, n).x == Eval(F, terms, p, n).x
    decreases n
  {
    assert OperandsBelow(terms[n], n);
    match terms[n]
    case Nulary =>
    case Unary(_, a) => UntouchedValue(F, terms, t, p, q, a);
    case Binary(_, a, b) => UntouchedValue(F, terms, t, p, q, a); UntouchedValue(F, terms, t, p, q, b);
  }

  /** Every term has the same value when t has become a leaf with the value of t. */
  lemma {:induction false} ReplacedValue(F: Funs, terms: seq<Operation>, t: nat, p: Point, q: Point, n: nat)
    requires WellFormed(terms) && NUM_CONSTANTS <= t < |terms| && n < |terms| && WellFormed(terms[t := Nulary])
    requires LeafJet(F, q, t).x == Eval(F, terms, p, t).x
    requires SameValues(F, p, q, Leaves(terms, n) - {t})
    ensures Eval(F, terms[t := Nulary], q, n).x == Eval(F, terms, p, n).x
    decreases n
  {
    assert OperandsBelow(terms[n], n);
    if n != t {
      match terms[n]
      case Nulary =>
      case Unary(_, a) => ReplacedValue(F, terms, t, p, q, a);
      case Binary(_, a, b) => ReplacedValue(F, terms, t, p, q, a); ReplacedValue(F, terms, t, p, q, b);
    }
  }

  /** The model with term t turned into the leaf of an atom. */
  ghost function WithAtomFor(m: Model, t: nat, a: Atom): Model
    requires t < |m.terms|
  {
    m.(terms := m.terms[t := Nulary], atoms := m.atoms[t := a])
  }

  lemma ReplacedModel(m: Model, t: nat, a: Atom)
    requires IsModel(m) && NUM_CONSTANTS <= t < |m.terms|
    ensures IsModel(WithAtomFor(m, t, a))
  {
    StillWellFormed(m.terms, t);
  }

  lemma ReplacedPoints(F: Funs, m: Model, t: nat, a: Atom, path: Path, s: int, leaves: set<nat>)
    requires IsModel(m) && NUM_CONSTANTS <= t < |m.terms| && t !in leaves
    ensures SameValues(F, PointAt(m, path, s), PointAt(WithAtomFor(m, t, a), path, s), leaves)
    ensures LeafJet(F, PointAt(WithAtomFor(m, t, a), path, s), t).x == Some(AtomValue(path, m.params, a, s))
  {
    var m' := WithAtomFor(m, t, a);
    var p, q := PointAt(m, path, s), PointAt(m', path, s);
    forall l: nat | l in leaves
      ensures LeafJet(F, p, l).x == LeafJet(F, q, l).x
    {
      assert l in p <==> l in q;
      if l in p { assert LeafValue(m, path, s, l) == LeafValue(m', path, s, l); }
    }
  }

  /** When the atom has the value of t, all equations keep their values. */
  lemma ReplacedHolds(F: Funs, m: Model, t: nat, a: Atom, path: Path, i: nat, s: int)
    requires IsModel(m) && NUM_CONSTANTS <= t < |m.terms| && IsModel(WithAtomFor(m, t, a)) && i < |m.formulas|
    requires TermValue(F, m, path, s, t) == Some(AtomValue(path, m.params, a, s))
    ensures HoldsAt(F, WithAtomFor(m, t, a), path, i, s) <==> HoldsAt(F, m, path, i, s)
  {
    var f := m.formulas[i];
    ReplacedPoints(F, m, t, a, path, s, Leaves(m.terms, f) - {t});
    ReplacedValue(F, m.terms, t, PointAt(m, path, s), PointAt(WithAtomFor(m, t, a), path, s), f);
  }

  /** An equation that does not reach t keeps its value in any case. */
  lemma UntouchedHolds(F: Funs, m: Model, t: nat, a: Atom, path: Path, i: nat, s: int)
    requires IsModel(m) && NUM_CONSTANTS <= t < |m.terms| && IsModel(WithAtomFor(m, t, a)) && i < |m.formulas|
    requires !Reaches(m.terms, m.formulas[i], t) && t !in Leaves(m.terms, m.formulas[i])
    ensures HoldsAt(F, WithAtomFor(m, t, a), path, i, s) <==> HoldsAt(F, m, path, i, s)
  {
    var f := m.formulas[i];
    ReplacedPoints(F, m, t, a, path, s, Leaves(m.terms, f));
    UntouchedValue(F, m.terms, t, PointAt(m, path, s), PointAt(WithAtomFor(m, t, a), path, s), f);
  }

  /** The value of lagt is the value of t, d periods later. */
  ghost predicate ShiftsExactly(m: Model, t: nat, lagt: nat, d: int)
    requires IsModel(m) && t < |m.terms| && lagt < |m.terms|
  {
    forall F: Funs, path: Path, s: int :: ShiftedAt(F, m, t, lagt, d, path, s)
  }

  ghost predicate ShiftedAt(F: Funs, m: Model, t: nat, lagt: nat, d: int, path: Path, s: int)
    requires IsModel(m) && t < |m.terms| && lagt < |m.terms|
  {
    TermValue(F, m, path, s, lagt) == TermValue(F, m, path, s + d, t)
  }

  /** No auxiliary equation is built from t. */
  ghost predicate ChainAvoids(m0: Model, m1: Model, t: nat)
    requires IsModel(m1) && t < |m1.terms|
  {
    forall i: nat :: |m0.formulas| <= i < |m1.formulas| ==>
      !Reaches(m1.terms, m1.formulas[i], t) && t !in Leaves(m1.terms, m1.formulas[i])
  }

  /** The last variable of the chain, one period ahead, is t. */
  lemma LastReadsTerm(F: Funs, m0: Model, m1: Model, t: nat, lagt: nat, defs: seq<Def>, path: Path, s: int)
    requires Chain(m0, m1, lagt, defs) && |defs| > 0 && t < |m1.terms| && ShiftsExactly(m1, t, lagt, -|defs|)
    requires ChainHolds(F, m0, m1, path)
    ensures defs[|defs| - 1].name !in m1.params
    ensures TermValue(F, m1, path, s, t) == Some(AtomValue(path, m1.params, Atom(defs[|defs| - 1].name, 1), s))
  {
    hide IsModel, GrowsTo, LinksTo, StoredAs, TermValue;
    var k := |defs| - 1;
    ChainReads(F, m0, m1, lagt, defs, path, k, s + 1);
    assert IsDef(m1, defs[k], m1.formulas[|m0.formulas| + k]);
    assert ShiftedAt(F, m1, t, lagt, -|defs|, path, s + 1 + k);
    assert s + 1 + k - |defs| == s;
  }

  /** Turning t into the last auxiliary variable's lead changes no solution. */
  lemma ReplacementConservative(m0: Model, m1: Model, t: nat, lagt: nat, defs: seq<Def>, names: set<string>)
    requires Chain(m0, m1, lagt, defs) && |defs| > 0 && NUM_CONSTANTS <= t < |m1.terms| && ShiftsExactly(m1, t, lagt, -|defs|)
    requires ChainAvoids(m0, m1, t)
    ensures IsModel(WithAtomFor(m1, t, Atom(defs[|defs| - 1].name, 1)))
    ensures Conservative(m1, names, WithAtomFor(m1, t, Atom(defs[|defs| - 1].name, 1)), names)
  {
    var a := Atom(defs[|defs| - 1].name, 1);
    ReplacedModel(m1, t, a);
    hide Chain, HoldsAt, IsModel, TermValue, ShiftsExactly;
    ChainModels(m0, m1, lagt, defs);
    forall F: Funs, x: Path
      ensures Solves(F, WithAtomFor(m1, t, a), x) <==> Solves(F, m1, x)
    {
      ReplacementSolves(F, m0, m1, t, lagt, defs, x);
    }
    SameSolutions(m1, WithAtomFor(m1, t, a), names);
  }

  lemma ReplacementSolves(F: Funs, m0: Model, m1: Model, t: nat, lagt: nat, defs: seq<Def>, x: Path)
    requires Chain(m0, m1, lagt, defs) && |defs| > 0 && NUM_CONSTANTS <= t < |m1.terms| && ShiftsExactly(m1, t, lagt, -|defs|)
    requires ChainAvoids(m0, m1, t) && IsModel(WithAtomFor(m1, t, Atom(defs[|defs| - 1].name, 1)))
    ensures Solves(F, WithAtomFor(m1, t, Atom(defs[|defs| - 1].name, 1)), x) <==> Solves(F, m1, x)
  {
    hide Chain, HoldsAt, IsModel, TermValue, ShiftsExactly, Reaches, Leaves;
    var a := Atom(defs[|defs| - 1].name, 1);
    var m2 := WithAtomFor(m1, t, a);
    ChainModels(m0, m1, lagt, defs);
    forall i: nat, s: int | |m0.formulas| <= i < |m1.formulas|
      ensures HoldsAt(F, m2, x, i, s) <==> HoldsAt(F, m1, x, i, s)
    {
      UntouchedHolds(F, m1, t, a, x, i, s);
    }
    if Solves(F, m1, x) || Solves(F, m2, x) {
      assert ChainHolds(F, m0, m1, x);
      forall i: nat, s: int | i < |m1.formulas|
        ensures HoldsAt(F, m2, x, i, s) <==> HoldsAt(F, m1, x, i, s)
      {
        LastReadsTerm(F, m0, m1, t, lagt, defs, x, s);
        ReplacedHolds(F, m1, t, a, x, i, s);
      }
    }
  }
}
