/** What the passes of the planner leave in the matrices of terms. */
module PlannerPasses {
  import opened Wrappers
  import opened Jets
  import opened Terms
  import opened OperationTrees
  import opened DynamicAtomsModule
  import opened ModelMeaning
  import opened ModelSteps
  import opened ForwardMeaning
  import opened ShiftedTerms
  import opened DynareModels
  import opened AuxNames
  import opened PlannerMeaning

  /** The problem: the original model, its atoms and declared names, the variables, the constraints, the
      objective and the discount parameter. */
  datatype Plan = Plan(m0: Model, vars: map<Atom, nat>, names: set<string>, ys: seq<string>, fset: seq<nat>, tb: nat, beta: string)

  /** The derivative of a term by a variable at some lead; zero when the variable does not occur at that lead. */
  function DerivativeBy(c: Plan, y: string, ll: int, t: nat): Spec {
    if Atom(y, ll) in c.vars then Derivative(c.vars[Atom(y, ll)], t) else Value(0.0)
  }

  /** What cell (yi, ll) of the objective's matrix stands for: the derivative, then shifted, then discounted. */
  function SpecB(c: Plan, k: nat, yi: nat, ll: int): Spec
    requires yi < |c.ys|
  {
    if k == 0 then DerivativeBy(c, c.ys[yi], ll, c.tb)
    else if k == 1 then Shift(SpecB(c, 0, yi, ll), -ll)
    else Product(Discount(c.beta, ll), SpecB(c, 1, yi, ll))
  }

  /** What cell (yi, fi, ll) of the constraints' array stands for: the derivative, then shifted or
      replaced by an auxiliary variable, then discounted, then multiplied with the multiplier. */
  function SpecF(c: Plan, auxOf: map<(nat, nat, int), string>, k: nat, yi: nat, fi: nat, ll: int): Spec
    requires yi < |c.ys| && fi < |c.fset|
  {
    if k == 0 then if c.fset[fi] < |c.m0.formulas| then DerivativeBy(c, c.ys[yi], ll, c.m0.formulas[c.fset[fi]]) else Value(0.0)
    else if k == 1 then
      if (yi, fi, ll) in auxOf then Variable(auxOf[(yi, fi, ll)], -ll) else Shift(SpecF(c, auxOf, 0, yi, fi, ll), -ll)
    else if k == 2 then Product(Discount(c.beta, ll), SpecF(c, auxOf, 1, yi, fi, ll))
    else Product(Variable(MultName(c.fset[fi]), -ll), SpecF(c, auxOf, 2, yi, fi, ll))
  }

  // ----- the matrices between passes -----

  function StageB(k: nat, done: set<(nat, int)>, yi: nat, ll: int): nat {
    if (yi, ll) in done then k + 1 else k
  }

  function StageF(k: nat, done: set<(nat, nat, int)>, yi: nat, fi: nat, ll: int): nat {
    if (yi, fi, ll) in done then k + 1 else k
  }

  ghost predicate MeansB(c: Plan, m: Model, cells: map<(nat, int), nat>, k: nat, yi: nat, ll: int)
    requires yi < |c.ys|
  {
    (yi, ll) in cells && Means(c.m0, m, cells[(yi, ll)], SpecB(c, k, yi, ll))
  }

  /** The cells of the objective's matrix have gone through k passes, those of the set through one more. */
  ghost predicate PassB(c: Plan, m: Model, cells: map<(nat, int), nat>, minlag: int, k: nat, done: set<(nat, int)>) {
    forall yi: nat, ll: int :: yi < |c.ys| && minlag <= ll <= 0 ==> MeansB(c, m, cells, StageB(k, done, yi, ll), yi, ll)
  }

  ghost predicate MeansF(c: Plan, m: Model, cells: map<(nat, nat, int), nat>, auxOf: map<(nat, nat, int), string>, k: nat, yi: nat, fi: nat, ll: int)
    requires yi < |c.ys| && fi < |c.fset|
  {
    (yi, fi, ll) in cells && Means(c.m0, m, cells[(yi, fi, ll)], SpecF(c, auxOf, k, yi, fi, ll))
  }

  ghost predicate PassF(c: Plan, m: Model, cells: map<(nat, nat, int), nat>, auxOf: map<(nat, nat, int), string>, minlag: int, maxlead: int,
                        k: nat, done: set<(nat, nat, int)>) {
    forall yi: nat, fi: nat, ll: int :: yi < |c.ys| && fi < |c.fset| && minlag <= ll <= maxlead ==>
      MeansF(c, m, cells, auxOf, StageF(k, done, yi, fi, ll), yi, fi, ll)
  }

  /** One cell goes through the pass. */
  lemma StepB(c: Plan, m: Model, cells: map<(nat, int), nat>, minlag: int, k: nat, done: set<(nat, int)>, m': Model, yi: nat, ll: int, r: nat)
    requires PassB(c, m, cells, minlag, k, done) && IsModel(m') && GrowsTo(m, m') && yi < |c.ys|
    requires Means(c.m0, m', r, SpecB(c, k + 1, yi, ll))
    ensures PassB(c, m', cells[(yi, ll) := r], minlag, k, done + {(yi, ll)})
  {
    hide Means, SpecB, IsModel, GrowsTo;
    var more := cells[(yi, ll) := r];
    forall y: nat, l: int | y < |c.ys| && minlag <= l <= 0
      ensures MeansB(c, m', more, StageB(k, done + {(yi, ll)}, y, l), y, l)
    {
      var stage := StageB(k, done, y, l);
      assert MeansB(c, m, cells, stage, y, l);
      MeansGrows(c.m0, m, m', cells[(y, l)], SpecB(c, stage, y, l));
    }
  }

  lemma StepF(c: Plan, m: Model, cells: map<(nat, nat, int), nat>, auxOf: map<(nat, nat, int), string>, minlag: int, maxlead: int, k: nat,
              done: set<(nat, nat, int)>, m': Model, yi: nat, fi: nat, ll: int, r: nat)
    requires PassF(c, m, cells, auxOf, minlag, maxlead, k, done) && IsModel(m') && GrowsTo(m, m') && yi < |c.ys| && fi < |c.fset|
    requires Means(c.m0, m', r, SpecF(c, auxOf, k + 1, yi, fi, ll))
    ensures PassF(c, m', cells[(yi, fi, ll) := r], auxOf, minlag, maxlead, k, done + {(yi, fi, ll)})
  {
    hide Means, SpecF, IsModel, GrowsTo;
    var more := cells[(yi, fi, ll) := r];
    forall y: nat, f: nat, l: int | y < |c.ys| && f < |c.fset| && minlag <= l <= maxlead
      ensures MeansF(c, m', more, auxOf, StageF(k, done + {(yi, fi, ll)}, y, f, l), y, f, l)
    {
      var stage := StageF(k, done, y, f, l);
      assert MeansF(c, m, cells, auxOf, stage, y, f, l);
      MeansGrows(c.m0, m, m', cells[(y, f, l)], SpecF(c, auxOf, stage, y, f, l));
    }
  }

  lemma GrownB(c: Plan, m: Model, cells: map<(nat, int), nat>, minlag: int, k: nat, done: set<(nat, int)>, m': Model)
    requires PassB(c, m, cells, minlag, k, done) && IsModel(m') && GrowsTo(m, m')
    ensures PassB(c, m', cells, minlag, k, done)
  {
    hide Means, SpecB, IsModel, GrowsTo;
    forall y: nat, l: int | y < |c.ys| && minlag <= l <= 0
      ensures MeansB(c, m', cells, StageB(k, done, y, l), y, l)
    {
      var stage := StageB(k, done, y, l);
      assert MeansB(c, m, cells, stage, y, l);
      MeansGrows(c.m0, m, m', cells[(y, l)], SpecB(c, stage, y, l));
    }
  }

  lemma GrownF(c: Plan, m: Model, cells: map<(nat, nat, int), nat>, auxOf: map<(nat, nat, int), string>, minlag: int, maxlead: int, k: nat,
               done: set<(nat, nat, int)>, m': Model)
    requires PassF(c, m, cells, auxOf, minlag, maxlead, k, done) && IsModel(m') && GrowsTo(m, m')
    ensures PassF(c, m', cells, auxOf, minlag, maxlead, k, done)
  {
    hide Means, SpecF, IsModel, GrowsTo;
    forall y: nat, f: nat, l: int | y < |c.ys| && f < |c.fset| && minlag <= l <= maxlead
      ensures MeansF(c, m', cells, auxOf, StageF(k, done, y, f, l), y, f, l)
    {
      var stage := StageF(k, done, y, f, l);
      assert MeansF(c, m, cells, auxOf, stage, y, f, l);
      MeansGrows(c.m0, m, m', cells[(y, f, l)], SpecF(c, auxOf, stage, y, f, l));
    }
  }

  /** Every cell has gone through the pass. */
  lemma PassedB(c: Plan, m: Model, cells: map<(nat, int), nat>, minlag: int, k: nat, done: set<(nat, int)>)
    requires PassB(c, m, cells, minlag, k, done) && forall yi: nat, ll: int :: yi < |c.ys| && minlag <= ll <= 0 ==> (yi, ll) in done
    ensures PassB(c, m, cells, minlag, k + 1, {})
  {
    var next := k + 1;
    forall y: nat, l: int | y < |c.ys| && minlag <= l <= 0
      ensures MeansB(c, m, cells, next, y, l)
    {
      assert MeansB(c, m, cells, StageB(k, done, y, l), y, l);
    }
  }

  lemma PassedF(c: Plan, m: Model, cells: map<(nat, nat, int), nat>, auxOf: map<(nat, nat, int), string>, minlag: int, maxlead: int, k: nat,
                done: set<(nat, nat, int)>)
    requires PassF(c, m, cells, auxOf, minlag, maxlead, k, done)
    requires forall yi: nat, fi: nat, ll: int :: yi < |c.ys| && fi < |c.fset| && minlag <= ll <= maxlead ==> (yi, fi, ll) in done
    ensures PassF(c, m, cells, auxOf, minlag, maxlead, k + 1, {})
  {
    var next := k + 1;
    forall y: nat, f: nat, l: int | y < |c.ys| && f < |c.fset| && minlag <= l <= maxlead
      ensures MeansF(c, m, cells, auxOf, next, y, f, l)
    {
      assert MeansF(c, m, cells, auxOf, StageF(k, done, y, f, l), y, f, l);
    }
  }

  /** The order of the cells of the array. */
  predicate BeforeF(y: nat, f: nat, l: int, yi: nat, fi: nat, ll: int) {
    y < yi || (y == yi && (f < fi || (f == fi && l < ll)))
  }

  ghost predicate FilledCells(c: Plan, m: Model, cells: map<(nat, nat, int), nat>, minlag: int, maxlead: int, yi: nat, fi: nat, ll: int) {
    forall y: nat, f: nat, l: int :: y < |c.ys| && f < |c.fset| && minlag <= l <= maxlead && BeforeF(y, f, l, yi, fi, ll) ==>
      MeansF(c, m, cells, map[], 0, y, f, l)
  }

  lemma OldTerm(md: Model, m: Model, t: nat, bound: int)
    requires AllNamed(md, bound) && IsModel(m) && GrowsTo(md, m) && t < |md.terms|
    ensures t < |m.terms| && SmallLeads(m, t, bound) && Closed(m, t)
  {
    LeavesGrow(md.terms, m.terms, t);
    LeavesAreLeaves(md.terms, t);
  }

  lemma ShiftMeans(m0: Model, m: Model, m1: Model, m2: Model, sourcemap: map<Operation, nat>, opmap: map<Operation, nat>, subst: map<nat, nat>,
                   t: nat, r: nat, d: int, g: Spec)
    requires IsModel(m) && IsModel(m1) && IsModel(m2) && GrowsTo(m, m1) && m1.formulas == m.formulas
    requires m2 == m1.(terms := m2.terms) && m1.terms <= m2.terms && t < |m.terms| && r < |m2.terms|
    requires Consed(m1.terms, sourcemap) && Consed(m2.terms, opmap) && Reduced(m1.terms) && OneLeafEach(m2)
    requires ShiftMap(m1, Leaves(m.terms, t), subst, d) && t < |m1.terms| && Image(m1.terms, opmap, subst, t) == Some(r)
    requires Means(m0, m, t, g)
    ensures GrowsTo(m, m2) && Means(m0, m2, r, Shift(g, d))
  {
    hide Consed, Reduced, OneLeafEach, Image, WellFormed, Means;
    LeavesGrow(m.terms, m1.terms, t);
    assert ShiftMap(m2, Leaves(m1.terms, t), subst, d) by {
      assert forall l: nat :: l in Leaves(m1.terms, t) ==> ShiftsLeaf(m1, subst, d, l) && ShiftsLeaf(m2, subst, d, l);
    }
    ShiftBuilt(m1, m2, sourcemap, opmap, subst, t, r, d);
    assert GrowsTo(m, m2);
    MeansGrows(m0, m, m2, t, g);
    MeansShift(m0, m2, t, r, g, d);
  }

  lemma ShiftBuilt(m1: Model, m2: Model, sourcemap: map<Operation, nat>, opmap: map<Operation, nat>, subst: map<nat, nat>, t: nat, r: nat, d: int)
    requires IsModel(m1) && IsModel(m2) && m2 == m1.(terms := m2.terms) && m1.terms <= m2.terms && t < |m1.terms| && r < |m2.terms|
    requires Consed(m1.terms, sourcemap) && Consed(m2.terms, opmap) && Reduced(m1.terms) && OneLeafEach(m2)
    requires ShiftMap(m2, Leaves(m1.terms, t), subst, d) && Image(m1.terms, opmap, subst, t) == Some(r)
    ensures ShiftsExactly(m2, t, r, d)
  {
    hide Consed, Reduced, OneLeafEach, Image, WellFormed, ShiftMap, TermValue;
    forall F: Funs, path: Path, s: int
      ensures ShiftedAt(F, m2, t, r, d, path, s)
    {
      ShiftedValue(F, m2, m1.terms, sourcemap, opmap, subst, t, r, d, path, s);
    }
  }

  // ----- the auxiliary variables -----

  ghost predicate AuxMeansAt(c: Plan, m: Model, auxMap: map<string, nat>, auxOf: map<(nat, nat, int), string>, cell: (nat, nat, int))
    requires cell in auxOf
  {
    && cell.0 < |c.ys| && cell.1 < |c.fset| && auxOf[cell] in auxMap
    && Means(c.m0, m, auxMap[auxOf[cell]], SpecF(c, map[], 0, cell.0, cell.1, cell.2))
  }

  ghost predicate HasLeaf(m: Model, a: Atom) {
    exists l: nat :: l in m.atoms && m.atoms[l] == a
  }

  lemma LeafStays(m: Model, m': Model, a: Atom)
    requires GrowsTo(m, m') && HasLeaf(m, a)
    ensures HasLeaf(m', a)
  {
    var l: nat :| l in m.atoms && m.atoms[l] == a;
    assert l in m'.atoms && m'.atoms[l] == a;
  }

  /** All atoms of the term have names from this set. */
  ghost predicate TermNames(m: Model, t: nat, names: set<string>) {
    WellFormed(m.terms) && t < |m.terms| && forall l: nat :: l in Leaves(m.terms, t) && l in m.atoms ==> m.atoms[l].name in names
  }

  lemma TermNamesGrow(m: Model, m': Model, t: nat, names: set<string>)
    requires TermNames(m, t, names) && IsModel(m) && IsModel(m') && GrowsTo(m, m')
    ensures TermNames(m', t, names)
  {
    LeavesGrow(m.terms, m'.terms, t);
    LeavesAreLeaves(m.terms, t);
  }

  lemma OldTermNames(md: Model, m: Model, t: nat, names: set<string>)
    requires NamesIn(md, names) && IsModel(md) && IsModel(m) && GrowsTo(md, m) && t < |md.terms|
    ensures TermNames(m, t, names)
  {
    LeavesGrow(md.terms, m.terms, t);
    LeavesAreLeaves(md.terms, t);
  }

  /** The term t stands for the derivative of a lagged cell, and n is the name that belongs to the cell. */
  ghost predicate StandsForCell(c: Plan, m: Model, n: string, t: nat, cell: (nat, nat, int)) {
    && cell.0 < |c.ys| && cell.1 < |c.fset| && cell.2 < 0 && n == AuxLagName(cell.0, c.fset[cell.1], -cell.2)
    && Means(c.m0, m, t, SpecF(c, map[], 0, cell.0, cell.1, cell.2))
  }

  ghost predicate AuxStands(c: Plan, m: Model, n: string, t: nat) {
    exists cell: (nat, nat, int) :: StandsForCell(c, m, n, t, cell)
  }

  lemma AuxStandsGrows(c: Plan, m: Model, n: string, t: nat, m': Model)
    requires AuxStands(c, m, n, t) && IsModel(m') && GrowsTo(m, m')
    ensures AuxStands(c, m', n, t)
  {
    hide Means, SpecF, IsModel, GrowsTo, AuxLagName;
    var cell: (nat, nat, int) :| StandsForCell(c, m, n, t, cell);
    MeansGrows(c.m0, m, m', t, SpecF(c, map[], 0, cell.0, cell.1, cell.2));
    assert StandsForCell(c, m', n, t, cell);
  }

  /** The auxiliary variable n is new, has a leaf, and its term is a lagged derivative with old names only. */
  ghost predicate AuxTerm(c: Plan, m: Model, auxMap: map<string, nat>, n: string) {
    n in auxMap && n !in c.names && HasLeaf(m, Atom(n, 0)) && TermNames(m, auxMap[n], c.names) && AuxStands(c, m, n, auxMap[n])
  }

  lemma StandsForNow(c: Plan, m: Model, n: string, t: nat, cell: (nat, nat, int))
    requires StandsForCell(c, m, n, t, cell)
    ensures AuxStands(c, m, n, t)
  {
  }

  ghost predicate AuxMeans(c: Plan, m: Model, auxMap: map<string, nat>, auxOf: map<(nat, nat, int), string>) {
    && (forall cell: (nat, nat, int) :: cell in auxOf ==> AuxMeansAt(c, m, auxMap, auxOf, cell))
    && (forall n: string :: n in auxMap ==> AuxTerm(c, m, auxMap, n))
  }

  lemma AuxMeansGrows(c: Plan, m: Model, auxMap: map<string, nat>, auxOf: map<(nat, nat, int), string>, m': Model)
    requires AuxMeans(c, m, auxMap, auxOf) && IsModel(m) && IsModel(m') && GrowsTo(m, m')
    ensures AuxMeans(c, m', auxMap, auxOf)
  {
    hide Means, SpecF, IsModel, GrowsTo, TermNames, AuxStands;
    forall cell: (nat, nat, int) | cell in auxOf
      ensures AuxMeansAt(c, m', auxMap, auxOf, cell)
    {
      assert AuxMeansAt(c, m, auxMap, auxOf, cell);
      MeansGrows(c.m0, m, m', auxMap[auxOf[cell]], SpecF(c, map[], 0, cell.0, cell.1, cell.2));
    }
    forall n: string | n in auxMap
      ensures AuxTerm(c, m', auxMap, n)
    {
      assert AuxTerm(c, m, auxMap, n);
      LeafStays(m, m', Atom(n, 0));
      TermNamesGrow(m, m', auxMap[n], c.names);
      AuxStandsGrows(c, m, n, auxMap[n], m');
    }
  }

  lemma AuxMeansMore(c: Plan, m: Model, auxMap: map<string, nat>, auxOf: map<(nat, nat, int), string>, m': Model,
                     cell: (nat, nat, int), name: string, ft: nat)
    requires AuxMeans(c, m, auxMap, auxOf) && IsModel(m) && IsModel(m') && GrowsTo(m, m') && cell !in auxOf && name !in auxMap
    requires cell.0 < |c.ys| && cell.1 < |c.fset| && Means(c.m0, m', ft, SpecF(c, map[], 0, cell.0, cell.1, cell.2))
    requires HasLeaf(m', Atom(name, 0)) && name !in c.names && TermNames(m', ft, c.names)
    requires cell.2 < 0 && name == AuxLagName(cell.0, c.fset[cell.1], -cell.2)
    ensures AuxMeans(c, m', auxMap[name := ft], auxOf[cell := name])
  {
    hide Means, SpecF, IsModel, GrowsTo, TermNames, AuxStands, AuxLagName;
    assert AuxStands(c, m', name, ft) by { StandsForNow(c, m', name, ft, cell); }
    AuxMeansGrows(c, m, auxMap, auxOf, m');
    var names, cells := auxMap[name := ft], auxOf[cell := name];
    forall k: (nat, nat, int) | k in cells
      ensures AuxMeansAt(c, m', names, cells, k)
    {
      if k != cell { assert AuxMeansAt(c, m', auxMap, auxOf, k); }
    }
    forall n: string | n in names
      ensures AuxTerm(c, m', names, n)
    {
      if n != name { assert AuxTerm(c, m', auxMap, n); }
    }
  }

  /** Cells that are not shifted yet do not depend on the auxiliary variables. */
  lemma AuxPass(c: Plan, m: Model, cells: map<(nat, nat, int), nat>, auxOf: map<(nat, nat, int), string>, auxes: map<(nat, nat, int), string>,
                minlag: int, maxlead: int, done: set<(nat, nat, int)>, yi: nat, fi: nat, ll: int)
    requires PassF(c, m, cells, auxOf, minlag, maxlead, 0, done) && (yi, fi, ll) !in done
    requires forall cell: (nat, nat, int) :: cell != (yi, fi, ll) ==> (cell in auxes <==> cell in auxOf) && (cell in auxOf ==> auxes[cell] == auxOf[cell])
    ensures PassF(c, m, cells, auxes, minlag, maxlead, 0, done)
  {
    hide Means;
    forall y: nat, f: nat, l: int | y < |c.ys| && f < |c.fset| && minlag <= l <= maxlead
      ensures MeansF(c, m, cells, auxes, StageF(0, done, y, f, l), y, f, l)
    {
      assert MeansF(c, m, cells, auxOf, StageF(0, done, y, f, l), y, f, l);
      if (y, f, l) in done {
        assert SpecF(c, auxes, 0, y, f, l) == SpecF(c, auxOf, 0, y, f, l);
      }
    }
  }

  // ----- the sums -----

  /** The discounted cells of the objective at the first n leads from minlag on, added up. */
  function TotalB(c: Plan, yi: nat, minlag: int, n: nat): Spec
    requires yi < |c.ys|
  {
    if n == 0 then Value(0.0) else Plus(TotalB(c, yi, minlag, n - 1), SpecB(c, 2, yi, minlag + n - 1))
  }

  /** The cells of one constraint at the first n leads, added to a formula. */
  function TotalF(c: Plan, auxOf: map<(nat, nat, int), string>, yi: nat, fi: nat, minlag: int, n: nat, start: Spec): Spec
    requires yi < |c.ys| && fi < |c.fset|
  {
    if n == 0 then start else Plus(TotalF(c, auxOf, yi, fi, minlag, n - 1, start), SpecF(c, auxOf, 3, yi, fi, minlag + n - 1))
  }

  /** The first-order condition of a variable, with the first fn constraints. */
  function Condition(c: Plan, auxOf: map<(nat, nat, int), string>, yi: nat, minlag: int, maxlead: int, fn: nat): Spec
    requires yi < |c.ys| && fn <= |c.fset| && minlag <= 0 <= maxlead
  {
    if fn == 0 then TotalB(c, yi, minlag, 1 - minlag)
    else TotalF(c, auxOf, yi, fn - 1, minlag, 1 + maxlead - minlag, Condition(c, auxOf, yi, minlag, maxlead, fn - 1))
  }

  ghost predicate FormulaMeans(c: Plan, m: Model, i: nat, g: Spec) {
    i < |m.formulas| && Means(c.m0, m, m.formulas[i], g)
  }

  /** The first n equations after the first `start` are the first-order conditions. */
  ghost predicate Conditions(c: Plan, m: Model, auxOf: map<(nat, nat, int), string>, minlag: int, maxlead: int, start: nat, n: nat)
    requires n <= |c.ys| && minlag <= 0 <= maxlead
  {
    forall yi: nat :: yi < n ==> FormulaMeans(c, m, start + yi, Condition(c, auxOf, yi, minlag, maxlead, |c.fset|))
  }

  lemma ConditionsGrow(c: Plan, m: Model, auxOf: map<(nat, nat, int), string>, minlag: int, maxlead: int, start: nat, n: nat, m': Model)
    requires n <= |c.ys| && minlag <= 0 <= maxlead && Conditions(c, m, auxOf, minlag, maxlead, start, n) && IsModel(m') && GrowsTo(m, m')
    ensures Conditions(c, m', auxOf, minlag, maxlead, start, n)
  {
    hide Means, IsModel, Condition;
    forall yi: nat | yi < n
      ensures FormulaMeans(c, m', start + yi, Condition(c, auxOf, yi, minlag, maxlead, |c.fset|))
    {
      assert FormulaMeans(c, m, start + yi, Condition(c, auxOf, yi, minlag, maxlead, |c.fset|));
      MeansGrows(c.m0, m, m', m.formulas[start + yi], Condition(c, auxOf, yi, minlag, maxlead, |c.fset|));
    }
  }

  lemma ConditionAdded(c: Plan, m: Model, auxOf: map<(nat, nat, int), string>, minlag: int, maxlead: int, start: nat, yi: nat, m': Model, eq: nat)
    requires yi < |c.ys| && minlag <= 0 <= maxlead && Conditions(c, m, auxOf, minlag, maxlead, start, yi)
    requires IsModel(m') && GrowsTo(m, m') && |m.formulas| == start + yi && m'.formulas == m.formulas + [eq]
    requires Means(c.m0, m, eq, Condition(c, auxOf, yi, minlag, maxlead, |c.fset|))
    ensures Conditions(c, m', auxOf, minlag, maxlead, start, yi + 1)
  {
    hide Means, IsModel, Condition, GrowsTo;
    ConditionsGrow(c, m, auxOf, minlag, maxlead, start, yi, m');
    MeansGrows(c.m0, m, m', eq, Condition(c, auxOf, yi, minlag, maxlead, |c.fset|));
    assert FormulaMeans(c, m', start + yi, Condition(c, auxOf, yi, minlag, maxlead, |c.fset|));
  }

  /** Equation i says that the auxiliary variable n equals its term. */
  ghost predicate DefinesAux(m: Model, auxMap: map<string, nat>, n: string, i: nat) {
    n in auxMap && i < |m.formulas| && exists d: Def :: d.name == n && d.def == auxMap[n] && IsDef(m, d, m.formulas[i])
  }

  /** Equation i defines some auxiliary variable. */
  ghost predicate IsAuxEquation(m: Model, auxMap: map<string, nat>, i: nat) {
    exists n: string :: DefinesAux(m, auxMap, n, i)
  }

  /** The equations from the first on define auxiliary variables. */
  ghost predicate OnlyAux(m: Model, auxMap: map<string, nat>, first: nat) {
    forall i: nat :: first <= i < |m.formulas| ==> IsAuxEquation(m, auxMap, i)
  }

  /** Some equation from the first on says so. */
  ghost predicate Defined(m: Model, auxMap: map<string, nat>, first: nat, n: string) {
    exists i: nat :: first <= i && DefinesAux(m, auxMap, n, i)
  }

  // ----- the names of the new variables -----

  ghost predicate Distinct(fset: seq<nat>) {
    forall f, g :: 0 <= f < g < |fset| ==> fset[f] != fset[g]
  }

  /** No auxiliary variable for a lagged derivative is declared. */
  ghost predicate AuxFree(names: set<string>) {
    forall y: nat, f: nat, l: nat :: AuxLagName(y, f, l) !in names
  }

  ghost predicate IsLagName(n: string) {
    exists y: nat, f: nat, l: nat :: n == AuxLagName(y, f, l)
  }

  ghost predicate IsMultName(n: string) {
    exists f: nat :: n == MultName(f)
  }

  /** The constraints are different and no multiplier is declared. */
  ghost predicate MultsFree(fset: seq<nat>, names: set<string>) {
    Distinct(fset) && forall f :: 0 <= f < |fset| ==> MultName(fset[f]) !in names
  }

  /** The name of the auxiliary variable of one of the cells. */
  ghost predicate IsCellName(fset: seq<nat>, n: string, cells: set<(nat, nat, int)>) {
    exists cell: (nat, nat, int) :: cell in cells && cell.1 < |fset| && cell.2 < 0 && n == AuxLagName(cell.0, fset[cell.1], -cell.2)
  }

  /** All added names belong to these cells. */
  ghost predicate CellNames(fset: seq<nat>, names0: set<string>, names: set<string>, cells: set<(nat, nat, int)>) {
    forall n: string :: n in names ==> n in names0 || IsCellName(fset, n, cells)
  }

  /** The name of another cell is still free. */
  lemma CellStillFree(fset: seq<nat>, names0: set<string>, names: set<string>, cells: set<(nat, nat, int)>, yi: nat, fi: nat, ll: int)
    requires CellNames(fset, names0, names, cells) && (yi, fi, ll) !in cells && fi < |fset| && ll < 0
    ensures Distinct(fset) && AuxFree(names0) ==> AuxLagName(yi, fset[fi], -ll) !in names
  {
    hide AuxLagName;
    var n := AuxLagName(yi, fset[fi], -ll);
    if IsCellName(fset, n, cells) {
      var cell: (nat, nat, int) :| cell in cells && cell.1 < |fset| && cell.2 < 0 && n == AuxLagName(cell.0, fset[cell.1], -cell.2);
      AuxLagInjective(yi, fset[fi], -ll, cell.0, fset[cell.1], -cell.2);
      assert cell == (cell.0, cell.1, cell.2);
    }
  }

  lemma CellNamesMore(fset: seq<nat>, names0: set<string>, names: set<string>, cells: set<(nat, nat, int)>, yi: nat, fi: nat, ll: int, more: set<string>)
    requires CellNames(fset, names0, names, cells) && fi < |fset|
    requires forall n: string :: n in more ==> n in names || (ll < 0 && n == AuxLagName(yi, fset[fi], -ll))
    ensures CellNames(fset, names0, more, cells + {(yi, fi, ll)})
  {
    hide AuxLagName;
    forall n: string | n in more && n !in names0
      ensures IsCellName(fset, n, cells + {(yi, fi, ll)})
    {
      if n in names {
        assert IsCellName(fset, n, cells);
        var cell: (nat, nat, int) :| cell in cells && cell.1 < |fset| && cell.2 < 0 && n == AuxLagName(cell.0, fset[cell.1], -cell.2);
        assert cell in cells + {(yi, fi, ll)};
      } else {
        var cell := (yi, fi, ll);
        assert cell in cells + {(yi, fi, ll)};
      }
    }
  }

  lemma CellNamesAreLagNames(fset: seq<nat>, names0: set<string>, names: set<string>, cells: set<(nat, nat, int)>)
    requires CellNames(fset, names0, names, cells)
    ensures forall n: string :: n in names ==> n in names0 || IsLagName(n)
  {
    hide AuxLagName;
    forall n: string | n in names && n !in names0
      ensures IsLagName(n)
    {
      assert IsCellName(fset, n, cells);
    }
  }

  /** Auxiliary variables take no name from the multipliers. */
  lemma MultsStayFree(fset: seq<nat>, names0: set<string>, names: set<string>)
    requires forall n: string :: n in names ==> n in names0 || IsLagName(n)
    ensures MultsFree(fset, names0) ==> MultsFree(fset, names)
  {
    hide AuxLagName, MultName;
    forall f | 0 <= f < |fset| && IsLagName(MultName(fset[f]))
      ensures false
    {
      var y: nat, g: nat, l: nat :| MultName(fset[f]) == AuxLagName(y, g, l);
      KindsApart(0, 0, 0, y, g, l, fset[f]);
    }
  }

  /** The multipliers of the first n constraints have been declared. */
  ghost predicate MultsNamed(fset: seq<nat>, names0: set<string>, names: set<string>, n: nat)
    requires n <= |fset|
  {
    && Distinct(fset[..n]) && (forall f :: 0 <= f < n ==> MultName(fset[f]) !in names0)
    && (forall x: string :: x in names <==> x in names0 || exists f :: 0 <= f < n && x == MultName(fset[f]))
  }

  lemma MultsNamedMore(fset: seq<nat>, names0: set<string>, names: set<string>, n: nat)
    requires n < |fset| && MultsNamed(fset, names0, names, n)
    ensures MultName(fset[n]) in names ==> !MultsFree(fset, names0)
    ensures MultName(fset[n]) !in names ==> MultsNamed(fset, names0, names + {MultName(fset[n])}, n + 1)
  {
    hide MultName;
    var x := MultName(fset[n]);
    if x in names && x !in names0 {
      var f :| 0 <= f < n && x == MultName(fset[f]);
      MultInjective(fset[f], fset[n]);
    }
    if x !in names {
      forall f, g | 0 <= f < g < n + 1
        ensures fset[f] != fset[g]
      {
        if g < n { assert fset[..n][f] != fset[..n][g]; }
      }
    }
  }
}
