/** What the equations added by the planner say along a path. */
module PlannerConditions {
  import opened Wrappers
  import opened Reals
  import opened RealSums
  import opened Jets
  import opened Terms
  import opened OperationTrees
  import opened ModelMeaning
  import opened MixedDerivatives
  import opened DynamicAtomsModule
  import opened LagElimination
  import opened ModelSteps
  import opened ForwardMeaning
  import opened ForwardSteps
  import opened PlannerMeaning
  import opened PlannerPasses
  import opened AuxNames

  // ----- the equations of the auxiliary variables -----

  lemma DefinedStays(m: Model, auxMap: map<string, nat>, first: nat, n: string, m': Model)
    requires Defined(m, auxMap, first, n) && GrowsTo(m, m')
    ensures Defined(m', auxMap, first, n)
  {
    var i: nat :| first <= i && DefinesAux(m, auxMap, n, i);
    var d: Def :| d.name == n && d.def == auxMap[n] && IsDef(m, d, m.formulas[i]);
    GrownDef(m, m', d, m.formulas[i]);
    assert DefinesAux(m', auxMap, n, i);
  }

  lemma OnlyAuxMore(m: Model, auxMap: map<string, nat>, first: nat, n: string, m': Model)
    requires OnlyAux(m, auxMap, first) && GrowsTo(m, m') && |m'.formulas| == |m.formulas| + 1 && DefinesAux(m', auxMap, n, |m.formulas|)
    ensures OnlyAux(m', auxMap, first)
  {
    hide IsDef;
    forall i: nat | first <= i < |m'.formulas|
      ensures IsAuxEquation(m', auxMap, i)
    {
      if i < |m.formulas| {
        assert IsAuxEquation(m, auxMap, i);
        var x: string :| DefinesAux(m, auxMap, x, i);
        var d: Def :| d.name == x && d.def == auxMap[x] && IsDef(m, d, m.formulas[i]);
        GrownDef(m, m', d, m.formulas[i]);
        assert DefinesAux(m', auxMap, x, i);
      }
    }
  }

  /** The equations of the auxiliary variables hold along the path. */
  ghost predicate AuxHold(F: Funs, m: Model, first: nat, path: Path)
    requires IsModel(m)
  {
    forall i: nat, s: int :: first <= i < |m.formulas| ==> HoldsAt(F, m, path, i, s)
  }

  /** Then an auxiliary variable has the value of its term at every time. */
  lemma AuxReads(F: Funs, m: Model, auxMap: map<string, nat>, first: nat, n: string, path: Path, s: int)
    requires IsModel(m) && AuxHold(F, m, first, path) && Defined(m, auxMap, first, n)
    ensures n in auxMap && auxMap[n] < |m.terms| && TermValue(F, m, path, s, auxMap[n]) == Some(path(n, s))
  {
    hide TermValue, IsModel, StoredAs;
    var i: nat :| first <= i && DefinesAux(m, auxMap, n, i);
    var d: Def :| d.name == n && d.def == auxMap[n] && IsDef(m, d, m.formulas[i]);
    assert HoldsAt(F, m, path, i, s);
    DefHolds(F, m, d, m.formulas[i], path, s);
  }

  // ----- the first-order conditions -----

  /** Everything the passes leave behind. */
  ghost predicate Finished(c: Plan, m: Model, auxMap: map<string, nat>, auxOf: map<(nat, nat, int), string>, minlag: int, maxlead: int) {
    && IsModel(c.m0) && IsModel(m) && minlag <= 0 <= maxlead
    && Conditions(c, m, auxOf, minlag, maxlead, |c.m0.formulas|, |c.ys|)
    && AuxMeans(c, m, auxMap, auxOf) && OnlyAux(m, auxMap, |c.m0.formulas| + |c.ys|)
    && forall n: string :: n in auxMap ==> Defined(m, auxMap, |c.m0.formulas| + |c.ys|, n)
  }

  /** A formula has the value of another one wherever the other has one. */
  ghost predicate AtLeast(F: Funs, m0: Model, path: Path, s: int, g: Spec, h: Spec)
    requires IsModel(m0)
  {
    Denote(F, m0, h, path, s).Some? ==> Denote(F, m0, g, path, s) == Denote(F, m0, h, path, s)
  }

  /** An auxiliary variable may stand for the shifted derivative of its cell. */
  lemma AuxCellValue(F: Funs, c: Plan, m: Model, auxMap: map<string, nat>, auxOf: map<(nat, nat, int), string>, minlag: int, maxlead: int,
                     yi: nat, fi: nat, ll: int, path: Path, s: int)
    requires Finished(c, m, auxMap, auxOf, minlag, maxlead) && Lawful(F) && AuxHold(F, m, |c.m0.formulas| + |c.ys|, path)
    requires yi < |c.ys| && fi < |c.fset|
    ensures AtLeast(F, c.m0, path, s, SpecF(c, auxOf, 1, yi, fi, ll), SpecF(c, map[], 1, yi, fi, ll))
  {
    hide TermValue, IsModel, Conditions, Defined, AuxHold, AuxTerm;
    var cell := (yi, fi, ll);
    if cell in auxOf {
      var n := auxOf[cell];
      assert AuxMeansAt(c, m, auxMap, auxOf, cell);
      AuxReads(F, m, auxMap, |c.m0.formulas| + |c.ys|, n, path, s - ll);
      assert MeansAt(F, c.m0, m, auxMap[n], SpecF(c, map[], 0, yi, fi, ll), path, s - ll);
      assert s + -ll == s - ll;
    }
  }

  lemma CellValue(F: Funs, c: Plan, m: Model, auxMap: map<string, nat>, auxOf: map<(nat, nat, int), string>, minlag: int, maxlead: int,
                  yi: nat, fi: nat, ll: int, path: Path, s: int)
    requires Finished(c, m, auxMap, auxOf, minlag, maxlead) && Lawful(F) && AuxHold(F, m, |c.m0.formulas| + |c.ys|, path)
    requires yi < |c.ys| && fi < |c.fset|
    ensures AtLeast(F, c.m0, path, s, SpecF(c, auxOf, 3, yi, fi, ll), SpecF(c, map[], 3, yi, fi, ll))
  {
    hide IsModel, Conditions, Defined, AuxHold, AuxMeans, Mul;
    AuxCellValue(F, c, m, auxMap, auxOf, minlag, maxlead, yi, fi, ll, path, s);
    assert AtLeast(F, c.m0, path, s, SpecF(c, auxOf, 2, yi, fi, ll), SpecF(c, map[], 2, yi, fi, ll));
  }

  lemma {:induction false} RowValue(F: Funs, c: Plan, m: Model, auxMap: map<string, nat>, auxOf: map<(nat, nat, int), string>, minlag: int, maxlead: int,
                 yi: nat, fi: nat, n: nat, g: Spec, h: Spec, path: Path, s: int)
    requires Finished(c, m, auxMap, auxOf, minlag, maxlead) && Lawful(F) && AuxHold(F, m, |c.m0.formulas| + |c.ys|, path)
    requires yi < |c.ys| && fi < |c.fset| && AtLeast(F, c.m0, path, s, g, h)
    ensures AtLeast(F, c.m0, path, s, TotalF(c, auxOf, yi, fi, minlag, n, g), TotalF(c, map[], yi, fi, minlag, n, h))
    decreases n
  {
    hide IsModel, Finished, AuxHold, SpecF;
    if n > 0 {
      RowValue(F, c, m, auxMap, auxOf, minlag, maxlead, yi, fi, n - 1, g, h, path, s);
      CellValue(F, c, m, auxMap, auxOf, minlag, maxlead, yi, fi, minlag + n - 1, path, s);
    }
  }

  lemma {:induction false} ConditionValue(F: Funs, c: Plan, m: Model, auxMap: map<string, nat>, auxOf: map<(nat, nat, int), string>,
                       minlag: int, maxlead: int, yi: nat, fn: nat, path: Path, s: int)
    requires Finished(c, m, auxMap, auxOf, minlag, maxlead) && Lawful(F) && AuxHold(F, m, |c.m0.formulas| + |c.ys|, path)
    requires yi < |c.ys| && fn <= |c.fset|
    ensures AtLeast(F, c.m0, path, s, Condition(c, auxOf, yi, minlag, maxlead, fn), Condition(c, map[], yi, minlag, maxlead, fn))
    decreases fn
  {
    hide IsModel, AuxHold, TotalF, TotalB, AtLeast, AuxMeans, Conditions, Defined;
    if fn > 0 {
      ConditionValue(F, c, m, auxMap, auxOf, minlag, maxlead, yi, fn - 1, path, s);
      RowValue(F, c, m, auxMap, auxOf, minlag, maxlead, yi, fn - 1, 1 + maxlead - minlag,
               Condition(c, auxOf, yi, minlag, maxlead, fn - 1), Condition(c, map[], yi, minlag, maxlead, fn - 1), path, s);
    } else {
      AtLeastSelf(F, c.m0, path, s, TotalB(c, yi, minlag, 1 - minlag));
    }
  }

  lemma AtLeastSelf(F: Funs, m0: Model, path: Path, s: int, g: Spec)
    requires IsModel(m0)
    ensures AtLeast(F, m0, path, s, g, g)
  {
  }

  /** Along every path on which the auxiliary equations hold, the equation built for a variable has the
      value of its first-order condition without auxiliary variables, wherever that is defined. */
  ghost predicate FirstOrder(c: Plan, m: Model, minlag: int, maxlead: int, yi: nat) {
    && IsModel(c.m0) && IsModel(m) && minlag <= 0 <= maxlead && yi < |c.ys| && |c.m0.formulas| + yi < |m.formulas|
    && forall F: Funs, path: Path, s: int :: FirstOrderAt(F, c, m, minlag, maxlead, yi, path, s)
  }

  ghost predicate FirstOrderAt(F: Funs, c: Plan, m: Model, minlag: int, maxlead: int, yi: nat, path: Path, s: int)
    requires IsModel(c.m0) && IsModel(m) && minlag <= 0 <= maxlead && yi < |c.ys| && |c.m0.formulas| + yi < |m.formulas|
  {
    Lawful(F) && AuxHold(F, m, |c.m0.formulas| + |c.ys|, path) ==>
    MeansAt(F, c.m0, m, m.formulas[|c.m0.formulas| + yi], Condition(c, map[], yi, minlag, maxlead, |c.fset|), path, s)
  }

  lemma AllFirstOrder(c: Plan, m: Model, auxMap: map<string, nat>, auxOf: map<(nat, nat, int), string>, minlag: int, maxlead: int, yi: nat)
    requires Finished(c, m, auxMap, auxOf, minlag, maxlead) && yi < |c.ys|
    ensures FirstOrder(c, m, minlag, maxlead, yi)
  {
    hide IsModel, Condition, AuxMeans, Defined, AuxHold, TermValue;
    var i, g, h := |c.m0.formulas| + yi, Condition(c, auxOf, yi, minlag, maxlead, |c.fset|), Condition(c, map[], yi, minlag, maxlead, |c.fset|);
    assert FormulaMeans(c, m, i, g);
    forall F: Funs, path: Path, s: int
      ensures FirstOrderAt(F, c, m, minlag, maxlead, yi, path, s)
    {
      if Lawful(F) && AuxHold(F, m, |c.m0.formulas| + |c.ys|, path) {
        assert MeansAt(F, c.m0, m, m.formulas[i], g, path, s);
        ConditionValue(F, c, m, auxMap, auxOf, minlag, maxlead, yi, |c.fset|, path, s);
      }
    }
  }

  // ----- the paths on which the auxiliary equations hold -----

  /** The replaced derivatives have values at all times. */
  ghost predicate AuxDefined(F: Funs, m: Model, auxMap: map<string, nat>, path: Path)
    requires IsModel(m)
  {
    forall n: string, s: int :: n in auxMap ==> HasValue(F, m, auxMap[n], path, s)
  }

  ghost predicate HasValue(F: Funs, m: Model, t: nat, path: Path, s: int)
    requires IsModel(m)
  {
    t < |m.terms| && TermValue(F, m, path, s, t).Some?
  }

  /** The paths only differ in these names. */
  ghost predicate AgreeOff(names: set<string>, x: Path, y: Path) {
    forall n: string, s: int :: n !in names ==> x(n, s) == y(n, s)
  }

  ghost predicate AuxExtends(F: Funs, m: Model, auxMap: map<string, nat>, first: nat, path: Path)
    requires IsModel(m)
  {
    exists y: Path :: AgreeOff(auxMap.Keys, path, y) && AuxHold(F, m, first, y)
  }

  /** Every path on which the replaced derivatives are defined extends to the auxiliary variables so that their
      equations hold, and in only one way. */
  ghost predicate AuxDetermined(c: Plan, m: Model, auxMap: map<string, nat>, first: nat) {
    && IsModel(m)
    && (forall F: Funs, x: Path :: AuxDefined(F, m, auxMap, x) ==> AuxExtends(F, m, auxMap, first, x))
    && (forall F: Funs, x: Path, y: Path :: AuxHold(F, m, first, x) && AuxHold(F, m, first, y) && AgreeOn(c.names, x, y) ==>
          AgreeOn(c.names + auxMap.Keys, x, y))
  }

  /** The extension of a path to the auxiliary variables. */
  ghost function AuxPath(F: Funs, m: Model, auxMap: map<string, nat>, x: Path): Path
    requires IsModel(m)
  {
    (n: string, s: int) =>
      if n in auxMap && auxMap[n] < |m.terms| && TermValue(F, m, x, s, auxMap[n]).Some? then TermValue(F, m, x, s, auxMap[n]).value else x(n, s)
  }

  /** The term of an auxiliary variable has the same value on paths that agree on the old names. */
  lemma AuxTermAgrees(F: Funs, c: Plan, m: Model, auxMap: map<string, nat>, n: string, x: Path, y: Path, s: int)
    requires IsModel(m) && AuxTerm(c, m, auxMap, n) && AgreeOn(c.names, x, y)
    ensures TermValue(F, m, x, s, auxMap[n]) == TermValue(F, m, y, s, auxMap[n])
  {
    AgreeValue(F, m, c.names, x, y, s, auxMap[n]);
  }

  lemma AuxPathHolds(F: Funs, c: Plan, m: Model, auxMap: map<string, nat>, first: nat, x: Path, i: nat, s: int)
    requires IsModel(m) && AuxDefined(F, m, auxMap, x) && IsAuxEquation(m, auxMap, i)
    requires forall n: string :: n in auxMap ==> AuxTerm(c, m, auxMap, n)
    ensures HoldsAt(F, m, AuxPath(F, m, auxMap, x), i, s)
  {
    hide TermValue, IsModel, IsDef, TermNames;
    var y := AuxPath(F, m, auxMap, x);
    var n: string :| DefinesAux(m, auxMap, n, i);
    var d: Def :| d.name == n && d.def == auxMap[n] && IsDef(m, d, m.formulas[i]);
    assert AuxTerm(c, m, auxMap, n) && HasValue(F, m, auxMap[n], x, s);
    assert AgreeOn(c.names, x, y) by {
      assert forall k: string :: k in auxMap ==> AuxTerm(c, m, auxMap, k);
    }
    AuxTermAgrees(F, c, m, auxMap, n, x, y, s);
    DefHolds(F, m, d, m.formulas[i], y, s);
  }

  lemma AuxesDetermined(c: Plan, m: Model, auxMap: map<string, nat>, auxOf: map<(nat, nat, int), string>, minlag: int, maxlead: int)
    requires Finished(c, m, auxMap, auxOf, minlag, maxlead)
    ensures AuxDetermined(c, m, auxMap, |c.m0.formulas| + |c.ys|)
  {
    hide TermValue, IsModel, Conditions, Defined, TermNames;
    var first := |c.m0.formulas| + |c.ys|;
    forall F: Funs, x: Path | AuxDefined(F, m, auxMap, x)
      ensures AuxExtends(F, m, auxMap, first, x)
    {
      var y := AuxPath(F, m, auxMap, x);
      forall i: nat, s: int | first <= i < |m.formulas|
        ensures HoldsAt(F, m, y, i, s)
      {
        AuxPathHolds(F, c, m, auxMap, first, x, i, s);
      }
      assert AgreeOff(auxMap.Keys, x, y);
      assert AuxHold(F, m, first, y);
    }
    forall F: Funs, x: Path, y: Path | AuxHold(F, m, first, x) && AuxHold(F, m, first, y) && AgreeOn(c.names, x, y)
      ensures AgreeOn(c.names + auxMap.Keys, x, y)
    {
      forall n: string, s: int | n in auxMap
        ensures x(n, s) == y(n, s)
      {
        assert AuxTerm(c, m, auxMap, n);
        AuxReads(F, m, auxMap, first, n, x, s);
        AuxReads(F, m, auxMap, first, n, y, s);
        AuxTermAgrees(F, c, m, auxMap, n, x, y, s);
      }
    }
  }

  /** Every auxiliary variable is new and stands for a lagged derivative of a constraint. */
  ghost predicate AuxesStand(c: Plan, m: Model, auxMap: map<string, nat>) {
    forall n: string :: n in auxMap ==> n !in c.names && AuxStands(c, m, n, auxMap[n])
  }

  /** The lagged derivatives of the constraints exist at all times. */
  ghost predicate LagsDifferentiable(F: Funs, c: Plan, path: Path)
    requires IsModel(c.m0)
  {
    forall yi: nat, fi: nat, ll: int, s: int :: yi < |c.ys| && fi < |c.fset| && ll < 0 ==>
      Denote(F, c.m0, SpecF(c, map[], 0, yi, fi, ll), path, s).Some?
  }

  /** Along such a path the replaced derivatives are defined, so the auxiliary equations can be solved. */
  lemma AuxiliariesExist(F: Funs, c: Plan, m: Model, auxMap: map<string, nat>, first: nat, x: Path)
    requires Lawful(F) && IsModel(c.m0) && AuxDetermined(c, m, auxMap, first) && AuxesStand(c, m, auxMap) && LagsDifferentiable(F, c, x)
    ensures AuxExtends(F, m, auxMap, first, x)
  {
    hide TermValue, IsModel, SpecF, Denote, AuxHold;
    forall n: string, s: int | n in auxMap
      ensures HasValue(F, m, auxMap[n], x, s)
    {
      var t := auxMap[n];
      assert AuxStands(c, m, n, t);
      var cell: (nat, nat, int) :| StandsForCell(c, m, n, t, cell);
      assert MeansAt(F, c.m0, m, t, SpecF(c, map[], 0, cell.0, cell.1, cell.2), x, s);
    }
    assert AuxDefined(F, m, auxMap, x);
  }

  // ----- the condition on paper -----

  ghost function ValueOf(F: Funs, m0: Model, g: Spec, path: Path, s: int): real
    requires IsModel(m0)
  {
    if Denote(F, m0, g, path, s).Some? then Denote(F, m0, g, path, s).value else 0.0
  }

  /** The discounted derivative of the objective by y(ll), ll periods earlier. */
  ghost function GainAt(F: Funs, c: Plan, yi: nat, ll: int, path: Path, s: int): real
    requires IsModel(c.m0) && yi < |c.ys|
  {
    Mul(ValueOf(F, c.m0, Discount(c.beta, ll), path, s), ValueOf(F, c.m0, DerivativeBy(c, c.ys[yi], ll, c.tb), path, s - ll))
  }

  /** The multiplier of a constraint times its discounted derivative by y(ll), both ll periods earlier. */
  ghost function CostAt(F: Funs, c: Plan, yi: nat, fi: nat, ll: int, path: Path, s: int): real
    requires IsModel(c.m0) && yi < |c.ys| && fi < |c.fset| && c.fset[fi] < |c.m0.formulas|
  {
    Mul(path(MultName(c.fset[fi]), s - ll),
        Mul(ValueOf(F, c.m0, Discount(c.beta, ll), path, s),
            ValueOf(F, c.m0, DerivativeBy(c, c.ys[yi], ll, c.m0.formulas[c.fset[fi]]), path, s - ll)))
  }

  ghost function Gains(F: Funs, c: Plan, yi: nat, minlag: int, path: Path, s: int): nat -> real
    requires IsModel(c.m0) && yi < |c.ys|
  {
    (k: nat) => GainAt(F, c, yi, minlag + k, path, s)
  }

  ghost function Costs(F: Funs, c: Plan, yi: nat, fi: nat, minlag: int, path: Path, s: int): nat -> real
    requires IsModel(c.m0) && yi < |c.ys| && fi < |c.fset| && c.fset[fi] < |c.m0.formulas|
  {
    (k: nat) => CostAt(F, c, yi, fi, minlag + k, path, s)
  }

  ghost predicate Constrained(c: Plan) {
    IsModel(c.m0) && forall fi: nat :: fi < |c.fset| ==> c.fset[fi] < |c.m0.formulas|
  }

  ghost function CostsOf(F: Funs, c: Plan, yi: nat, minlag: int, maxlead: int, path: Path, s: int): nat -> real
    requires Constrained(c) && yi < |c.ys| && minlag <= 0 <= maxlead
  {
    (fi: nat) => if fi < |c.fset| then Sum(Costs(F, c, yi, fi, minlag, path, s), 0, 1 + maxlead - minlag) else 0.0
  }

  /** The discount is defined and the derivatives of the objective and the constraints exist. */
  ghost predicate Differentiable(F: Funs, c: Plan, yi: nat, minlag: int, maxlead: int, path: Path, s: int)
    requires Constrained(c) && yi < |c.ys|
  {
    && (maxlead > 0 ==> path(c.beta, 0) != 0.0)
    && (forall ll: int :: minlag <= ll <= 0 ==> Denote(F, c.m0, DerivativeBy(c, c.ys[yi], ll, c.tb), path, s - ll).Some?)
    && (forall fi: nat, ll: int :: fi < |c.fset| && minlag <= ll <= maxlead ==>
          Denote(F, c.m0, DerivativeBy(c, c.ys[yi], ll, c.m0.formulas[c.fset[fi]]), path, s - ll).Some?)
  }

  lemma DiscountDefined(F: Funs, c: Plan, yi: nat, minlag: int, maxlead: int, ll: int, path: Path, s: int)
    requires Constrained(c) && yi < |c.ys| && Differentiable(F, c, yi, minlag, maxlead, path, s) && ll <= maxlead
    ensures Denote(F, c.m0, Discount(c.beta, ll), path, s).Some?
  {
    hide IsModel, Discount;
    DiscountIsPower(F, c.m0, c.beta, ll, path, s);
  }

  lemma {:induction false} GainsAddUp(F: Funs, c: Plan, yi: nat, minlag: int, maxlead: int, n: nat, path: Path, s: int)
    requires Constrained(c) && yi < |c.ys| && minlag <= 0 <= maxlead && n <= 1 - minlag
    requires Differentiable(F, c, yi, minlag, maxlead, path, s)
    ensures Denote(F, c.m0, TotalB(c, yi, minlag, n), path, s) == Some(Sum(Gains(F, c, yi, minlag, path, s), 0, n))
    decreases n
  {
    hide IsModel, Discount, Mul;
    if n > 0 {
      GainsAddUp(F, c, yi, minlag, maxlead, n - 1, path, s);
      GainCell(F, c, yi, minlag, maxlead, minlag + n - 1, path, s);
    }
  }

  lemma GainCell(F: Funs, c: Plan, yi: nat, minlag: int, maxlead: int, ll: int, path: Path, s: int)
    requires Constrained(c) && yi < |c.ys| && minlag <= ll <= 0 <= maxlead && Differentiable(F, c, yi, minlag, maxlead, path, s)
    ensures Denote(F, c.m0, SpecB(c, 2, yi, ll), path, s) == Some(GainAt(F, c, yi, ll, path, s))
  {
    hide IsModel, Discount, Mul, DerivativeBy;
    DiscountDefined(F, c, yi, minlag, maxlead, ll, path, s);
    assert s + -ll == s - ll;
    assert SpecB(c, 1, yi, ll) == Shift(SpecB(c, 0, yi, ll), -ll);
    assert SpecB(c, 2, yi, ll) == Product(Discount(c.beta, ll), SpecB(c, 1, yi, ll));
  }

  lemma CostCell(F: Funs, c: Plan, yi: nat, fi: nat, minlag: int, maxlead: int, ll: int, path: Path, s: int)
    requires Constrained(c) && yi < |c.ys| && fi < |c.fset| && minlag <= ll <= maxlead && Differentiable(F, c, yi, minlag, maxlead, path, s)
    ensures Denote(F, c.m0, SpecF(c, map[], 3, yi, fi, ll), path, s) == Some(CostAt(F, c, yi, fi, ll, path, s))
  {
    hide IsModel, Discount, Mul, DerivativeBy;
    DiscountDefined(F, c, yi, minlag, maxlead, ll, path, s);
    assert s + -ll == s - ll;
    var d := DerivativeBy(c, c.ys[yi], ll, c.m0.formulas[c.fset[fi]]);
    assert SpecF(c, map[], 1, yi, fi, ll) == Shift(SpecF(c, map[], 0, yi, fi, ll), -ll);
    assert SpecF(c, map[], 0, yi, fi, ll) == d;
    assert SpecF(c, map[], 2, yi, fi, ll) == Product(Discount(c.beta, ll), SpecF(c, map[], 1, yi, fi, ll));
    assert Denote(F, c.m0, SpecF(c, map[], 1, yi, fi, ll), path, s) == Denote(F, c.m0, d, path, s - ll);
    assert Denote(F, c.m0, SpecF(c, map[], 2, yi, fi, ll), path, s) ==
      Some(Mul(ValueOf(F, c.m0, Discount(c.beta, ll), path, s), ValueOf(F, c.m0, d, path, s - ll)));
    assert SpecF(c, map[], 3, yi, fi, ll) == Product(Variable(MultName(c.fset[fi]), -ll), SpecF(c, map[], 2, yi, fi, ll));
  }

  lemma {:induction false} CostsAddUp(F: Funs, c: Plan, yi: nat, fi: nat, minlag: int, maxlead: int, n: nat, g: Spec, path: Path, s: int)
    requires Constrained(c) && yi < |c.ys| && fi < |c.fset| && minlag <= 0 <= maxlead && n <= 1 + maxlead - minlag
    requires Differentiable(F, c, yi, minlag, maxlead, path, s) && Denote(F, c.m0, g, path, s).Some?
    ensures Denote(F, c.m0, TotalF(c, map[], yi, fi, minlag, n, g), path, s) ==
      Some(Denote(F, c.m0, g, path, s).value + Sum(Costs(F, c, yi, fi, minlag, path, s), 0, n))
    decreases n
  {
    hide IsModel, SpecF, CostAt;
    if n > 0 {
      CostsAddUp(F, c, yi, fi, minlag, maxlead, n - 1, g, path, s);
      CostCell(F, c, yi, fi, minlag, maxlead, minlag + n - 1, path, s);
    }
  }

  /** The first-order condition is the sum over the lags of the discounted derivatives of the objective, plus
      the sum over the constraints and their leads of multiplier, discount and derivative. */
  lemma {:induction false} ConditionIsSum(F: Funs, c: Plan, yi: nat, minlag: int, maxlead: int, fn: nat, path: Path, s: int)
    requires Constrained(c) && yi < |c.ys| && minlag <= 0 <= maxlead && fn <= |c.fset|
    requires Differentiable(F, c, yi, minlag, maxlead, path, s)
    ensures Denote(F, c.m0, Condition(c, map[], yi, minlag, maxlead, fn), path, s) ==
      Some(Sum(Gains(F, c, yi, minlag, path, s), 0, 1 - minlag) + Sum(CostsOf(F, c, yi, minlag, maxlead, path, s), 0, fn))
    decreases fn
  {
    hide IsModel, Gains, Costs, TotalB, TotalF, Differentiable;
    if fn > 0 {
      ConditionIsSum(F, c, yi, minlag, maxlead, fn - 1, path, s);
      CostsAddUp(F, c, yi, fn - 1, minlag, maxlead, 1 + maxlead - minlag, Condition(c, map[], yi, minlag, maxlead, fn - 1), path, s);
    } else {
      GainsAddUp(F, c, yi, minlag, maxlead, 1 - minlag, path, s);
    }
  }

  // ----- the condition in tangents -----

  /** The values of the leaves at time s. */
  ghost function ValuesAt(m: Model, path: Path, s: int): map<nat, real> {
    map t | t in m.atoms.Keys + m.consts.Keys :: LeafValue(m, path, s, t)
  }

  /** The atoms of the plan are leaves of the model. */
  ghost predicate AtomsAreLeaves(c: Plan) {
    IsModel(c.m0) && forall a: Atom :: a in c.vars ==> c.vars[a] in c.m0.atoms
  }

  /** The tangent of a term in the direction of a variable at some lead; zero when the variable does not occur there. */
  ghost function TangentBy(F: Funs, c: Plan, y: string, ll: int, t: nat, path: Path, s: int): Option<real>
    requires IsModel(c.m0)
  {
    if Atom(y, ll) !in c.vars then Some(0.0)
    else if t < |c.m0.terms| then Eval(F, c.m0.terms, At(ValuesAt(c.m0, path, s), c.vars[Atom(y, ll)]), t).d
    else None
  }

  /** The rule-based derivative is the tangent. */
  lemma DerivativeIsTangent(F: Funs, c: Plan, y: string, ll: int, t: nat, path: Path, s: int)
    requires AtomsAreLeaves(c) && Lawful(F) && TangentBy(F, c, y, ll, t, path, s).Some?
    ensures Denote(F, c.m0, DerivativeBy(c, y, ll, t), path, s) == TangentBy(F, c, y, ll, t, path, s)
  {
    if Atom(y, ll) in c.vars {
      var u, p, val := c.vars[Atom(y, ll)], PointAt(c.m0, path, s), ValuesAt(c.m0, path, s);
      assert IsLeaf(c.m0.terms, u);
      DerivIsTangent(F, c.m0.terms, p, val, u, t);
    }
  }

  /** The objective and the constraints have tangents, and the discount is defined. */
  ghost predicate Smooth(F: Funs, c: Plan, yi: nat, minlag: int, maxlead: int, path: Path, s: int)
    requires Constrained(c) && yi < |c.ys|
  {
    && (maxlead > 0 ==> path(c.beta, 0) != 0.0)
    && (forall ll: int :: minlag <= ll <= 0 ==> GainSmooth(F, c, yi, ll, path, s))
    && (forall fi: nat, ll: int :: fi < |c.fset| && minlag <= ll <= maxlead ==> CostSmooth(F, c, yi, fi, ll, path, s))
  }

  ghost predicate GainSmooth(F: Funs, c: Plan, yi: nat, ll: int, path: Path, s: int)
    requires IsModel(c.m0) && yi < |c.ys|
  {
    TangentBy(F, c, c.ys[yi], ll, c.tb, path, s - ll).Some?
  }

  ghost predicate CostSmooth(F: Funs, c: Plan, yi: nat, fi: nat, ll: int, path: Path, s: int)
    requires Constrained(c) && yi < |c.ys| && fi < |c.fset|
  {
    TangentBy(F, c, c.ys[yi], ll, c.m0.formulas[c.fset[fi]], path, s - ll).Some?
  }

  ghost function TangentOr0(F: Funs, c: Plan, y: string, ll: int, t: nat, path: Path, s: int): real
    requires IsModel(c.m0)
  {
    if TangentBy(F, c, y, ll, t, path, s).Some? then TangentBy(F, c, y, ll, t, path, s).value else 0.0
  }

  ghost function TangentGainAt(F: Funs, c: Plan, yi: nat, ll: int, path: Path, s: int): real
    requires IsModel(c.m0) && yi < |c.ys|
  {
    Mul(ValueOf(F, c.m0, Discount(c.beta, ll), path, s), TangentOr0(F, c, c.ys[yi], ll, c.tb, path, s - ll))
  }

  ghost function TangentCostAt(F: Funs, c: Plan, yi: nat, fi: nat, ll: int, path: Path, s: int): real
    requires IsModel(c.m0) && yi < |c.ys| && fi < |c.fset| && c.fset[fi] < |c.m0.formulas|
  {
    Mul(path(MultName(c.fset[fi]), s - ll),
        Mul(ValueOf(F, c.m0, Discount(c.beta, ll), path, s), TangentOr0(F, c, c.ys[yi], ll, c.m0.formulas[c.fset[fi]], path, s - ll)))
  }

  /** The discounted tangents of the objective. */
  ghost function TangentGains(F: Funs, c: Plan, yi: nat, minlag: int, path: Path, s: int): nat -> real
    requires IsModel(c.m0) && yi < |c.ys|
  {
    (k: nat) => TangentGainAt(F, c, yi, minlag + k, path, s)
  }

  /** The multiplier times the discounted tangents of a constraint. */
  ghost function TangentCosts(F: Funs, c: Plan, yi: nat, fi: nat, minlag: int, path: Path, s: int): nat -> real
    requires IsModel(c.m0) && yi < |c.ys| && fi < |c.fset| && c.fset[fi] < |c.m0.formulas|
  {
    (k: nat) => TangentCostAt(F, c, yi, fi, minlag + k, path, s)
  }

  ghost function TangentCostsOf(F: Funs, c: Plan, yi: nat, minlag: int, maxlead: int, path: Path, s: int): nat -> real
    requires Constrained(c) && yi < |c.ys| && minlag <= 0 <= maxlead
  {
    (fi: nat) => if fi < |c.fset| then Sum(TangentCosts(F, c, yi, fi, minlag, path, s), 0, 1 + maxlead - minlag) else 0.0
  }

  /** The first-order condition in true tangents: the discounted derivatives of the objective over the lags, plus those
      of the constraints times their multipliers. */
  ghost function FirstOrderSum(F: Funs, c: Plan, yi: nat, minlag: int, maxlead: int, path: Path, s: int): real
    requires Constrained(c) && yi < |c.ys| && minlag <= 0 <= maxlead
  {
    Sum(TangentGains(F, c, yi, minlag, path, s), 0, 1 - minlag) + Sum(TangentCostsOf(F, c, yi, minlag, maxlead, path, s), 0, |c.fset|)
  }

  lemma SmoothDifferentiable(F: Funs, c: Plan, yi: nat, minlag: int, maxlead: int, path: Path, s: int)
    requires Constrained(c) && AtomsAreLeaves(c) && Lawful(F) && yi < |c.ys| && Smooth(F, c, yi, minlag, maxlead, path, s)
    ensures Differentiable(F, c, yi, minlag, maxlead, path, s)
  {
    hide IsModel, Denote, TangentBy, DerivativeBy;
    forall ll: int | minlag <= ll <= 0
      ensures Denote(F, c.m0, DerivativeBy(c, c.ys[yi], ll, c.tb), path, s - ll).Some?
    {
      assert GainSmooth(F, c, yi, ll, path, s);
      DerivativeIsTangent(F, c, c.ys[yi], ll, c.tb, path, s - ll);
    }
    forall fi: nat, ll: int | fi < |c.fset| && minlag <= ll <= maxlead
      ensures Denote(F, c.m0, DerivativeBy(c, c.ys[yi], ll, c.m0.formulas[c.fset[fi]]), path, s - ll).Some?
    {
      assert CostSmooth(F, c, yi, fi, ll, path, s);
      DerivativeIsTangent(F, c, c.ys[yi], ll, c.m0.formulas[c.fset[fi]], path, s - ll);
    }
  }

  lemma GainIsTangent(F: Funs, c: Plan, yi: nat, ll: int, path: Path, s: int)
    requires AtomsAreLeaves(c) && Lawful(F) && yi < |c.ys| && GainSmooth(F, c, yi, ll, path, s)
    ensures TangentGainAt(F, c, yi, ll, path, s) == GainAt(F, c, yi, ll, path, s)
  {
    hide IsModel, Denote, TangentBy, DerivativeBy, Mul, Discount;
    DerivativeIsTangent(F, c, c.ys[yi], ll, c.tb, path, s - ll);
  }

  lemma CostIsTangent(F: Funs, c: Plan, yi: nat, fi: nat, ll: int, path: Path, s: int)
    requires Constrained(c) && AtomsAreLeaves(c) && Lawful(F) && yi < |c.ys| && fi < |c.fset| && CostSmooth(F, c, yi, fi, ll, path, s)
    ensures TangentCostAt(F, c, yi, fi, ll, path, s) == CostAt(F, c, yi, fi, ll, path, s)
  {
    hide IsModel, Denote, TangentBy, DerivativeBy, Mul, Discount;
    DerivativeIsTangent(F, c, c.ys[yi], ll, c.m0.formulas[c.fset[fi]], path, s - ll);
  }

  lemma GainsAreTangents(F: Funs, c: Plan, yi: nat, minlag: int, maxlead: int, path: Path, s: int)
    requires Constrained(c) && AtomsAreLeaves(c) && Lawful(F) && yi < |c.ys| && minlag <= 0 && Smooth(F, c, yi, minlag, maxlead, path, s)
    ensures Sum(TangentGains(F, c, yi, minlag, path, s), 0, 1 - minlag) == Sum(Gains(F, c, yi, minlag, path, s), 0, 1 - minlag)
  {
    hide IsModel, GainSmooth, TangentGainAt, GainAt;
    var tangents, gains := TangentGains(F, c, yi, minlag, path, s), Gains(F, c, yi, minlag, path, s);
    forall k: nat | k < 1 - minlag
      ensures tangents(k) == gains(k)
    {
      GainIsTangent(F, c, yi, minlag + k, path, s);
    }
    SumSame(tangents, gains, 0, 1 - minlag);
  }

  lemma CostsAreTangents(F: Funs, c: Plan, yi: nat, fi: nat, minlag: int, maxlead: int, path: Path, s: int)
    requires Constrained(c) && AtomsAreLeaves(c) && Lawful(F) && yi < |c.ys| && fi < |c.fset| && minlag <= 0 <= maxlead
    requires Smooth(F, c, yi, minlag, maxlead, path, s)
    ensures Sum(TangentCosts(F, c, yi, fi, minlag, path, s), 0, 1 + maxlead - minlag) == Sum(Costs(F, c, yi, fi, minlag, path, s), 0, 1 + maxlead - minlag)
  {
    hide IsModel, CostSmooth, TangentCostAt, CostAt;
    var tangents, costs := TangentCosts(F, c, yi, fi, minlag, path, s), Costs(F, c, yi, fi, minlag, path, s);
    forall k: nat | k < 1 + maxlead - minlag
      ensures tangents(k) == costs(k)
    {
      CostIsTangent(F, c, yi, fi, minlag + k, path, s);
    }
    SumSame(tangents, costs, 0, 1 + maxlead - minlag);
  }

  /** The equation built for a variable has the first-order condition in true tangents as its value, along every path on
      which the auxiliary equations hold and wherever the tangents exist. */
  lemma FirstOrderInTangents(F: Funs, c: Plan, m: Model, minlag: int, maxlead: int, yi: nat, path: Path, s: int)
    requires FirstOrder(c, m, minlag, maxlead, yi) && Constrained(c) && AtomsAreLeaves(c) && Lawful(F)
    requires AuxHold(F, m, |c.m0.formulas| + |c.ys|, path) && Smooth(F, c, yi, minlag, maxlead, path, s)
    ensures TermValue(F, m, path, s, m.formulas[|c.m0.formulas| + yi]) == Some(FirstOrderSum(F, c, yi, minlag, maxlead, path, s))
  {
    hide IsModel, TermValue, Smooth, Differentiable, Condition, AuxHold, TangentGains, TangentCosts, Gains, Costs, Constrained, AtomsAreLeaves;
    SmoothDifferentiable(F, c, yi, minlag, maxlead, path, s);
    ConditionIsSum(F, c, yi, minlag, maxlead, |c.fset|, path, s);
    assert FirstOrderAt(F, c, m, minlag, maxlead, yi, path, s);
    GainsAreTangents(F, c, yi, minlag, maxlead, path, s);
    var tangents, costs := TangentCostsOf(F, c, yi, minlag, maxlead, path, s), CostsOf(F, c, yi, minlag, maxlead, path, s);
    forall fi: nat | fi < |c.fset|
      ensures tangents(fi) == costs(fi)
    {
      CostsAreTangents(F, c, yi, fi, minlag, maxlead, path, s);
    }
    SumSame(tangents, costs, 0, |c.fset|);
  }
}
