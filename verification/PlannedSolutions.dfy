/** What solving a model with the planner's conditions means: the equations and the first-order conditions, and nothing else. */
module PlannedSolutions {
  import opened Reals
  import opened RealSums
  import opened Jets
  import opened DynamicAtomsModule
  import opened ModelMeaning
  import opened LagElimination
  import opened ModelSteps
  import opened AuxNames
  import opened PlannerMeaning
  import opened PlannerPasses
  import opened PlannerConditions

  /** What the planner has made of a model: the old equations, then the first-order conditions of all variables, then the
      equations of auxiliary variables, which stand for lagged derivatives and are determined. All names are declared, and
      the new ones are auxiliary variables and multipliers. */
  ghost predicate Planned(c: Plan, m: Model, names: set<string>, auxMap: map<string, nat>, minlag: int, maxlead: int) {
    && PlanKnown(c, minlag, maxlead) && IsModel(m) && GrowsTo(c.m0, m) && |m.formulas| == |c.m0.formulas| + |c.ys| + |auxMap|
    && (forall yi: nat :: yi < |c.ys| ==> FirstOrder(c, m, minlag, maxlead, yi))
    && AuxDetermined(c, m, auxMap, |c.m0.formulas| + |c.ys|) && AuxesStand(c, m, auxMap)
    && AllDeclared(c, m, names)
  }

  /** The plan is over a model with known names, and its atoms have leads in this range. */
  ghost predicate PlanKnown(c: Plan, minlag: int, maxlead: int) {
    && Constrained(c) && AtomsAreLeaves(c) && minlag <= 0 <= maxlead && NamesIn(c.m0, c.names) && c.beta in c.names
    && (forall a: Atom :: a in c.vars ==> minlag <= a.ll <= maxlead)
  }

  ghost predicate AllDeclared(c: Plan, m: Model, names: set<string>) {
    && c.names <= names && NamesIn(m, names) && (forall f: nat :: f < |c.fset| ==> MultName(c.fset[f]) in names)
    && (forall n: string :: n in names ==> n in c.names || IsLagName(n) || IsMultName(n))
  }

  /** The objective and the constraints have all tangents along the path, and the discount is defined. */
  ghost predicate SmoothAlong(F: Funs, c: Plan, minlag: int, maxlead: int, path: Path)
    requires Constrained(c)
  {
    forall yi: nat, s: int :: yi < |c.ys| ==> Smooth(F, c, yi, minlag, maxlead, path, s)
  }

  /** The path solves the planner's problem to first order: the equations and all first-order conditions hold. */
  ghost predicate SolvesPlan(F: Funs, c: Plan, minlag: int, maxlead: int, path: Path)
    requires Constrained(c) && minlag <= 0 <= maxlead
  {
    && Solves(F, c.m0, path)
    && (forall yi: nat, s: int :: yi < |c.ys| ==> FirstOrderSum(F, c, yi, minlag, maxlead, path, s) == 0.0)
  }

  /** Then the replaced derivatives exist. */
  lemma SmoothLags(F: Funs, c: Plan, minlag: int, maxlead: int, path: Path)
    requires PlanKnown(c, minlag, maxlead) && Lawful(F) && SmoothAlong(F, c, minlag, maxlead, path)
    ensures LagsDifferentiable(F, c, path)
  {
    hide TangentBy, IsModel;
    forall yi: nat, fi: nat, ll: int, s: int | yi < |c.ys| && fi < |c.fset| && ll < 0
      ensures Denote(F, c.m0, SpecF(c, map[], 0, yi, fi, ll), path, s).Some?
    {
      var t := c.m0.formulas[c.fset[fi]];
      assert SpecF(c, map[], 0, yi, fi, ll) == DerivativeBy(c, c.ys[yi], ll, t);
      if ll >= minlag {
        assert Smooth(F, c, yi, minlag, maxlead, path, s + ll);
        assert CostSmooth(F, c, yi, fi, ll, path, s + ll);
        DerivativeIsTangent(F, c, c.ys[yi], ll, t, path, s);
      } else {
        assert Atom(c.ys[yi], ll) !in c.vars;
        assert DerivativeBy(c, c.ys[yi], ll, t) == Value(0.0);
      }
    }
  }

  // ----- the conditions only depend on the declared names -----

  lemma {:induction false} SameDiscount(F: Funs, m0: Model, beta: string, ll: int, x: Path, y: Path, s: int)
    requires IsModel(m0) && x(beta, 0) == y(beta, 0)
    ensures Denote(F, m0, Discount(beta, ll), x, s) == Denote(F, m0, Discount(beta, ll), y, s)
    decreases if ll < 0 then -ll else ll
  {
    hide IsModel;
    if ll < 0 {
      SameDiscount(F, m0, beta, ll + 1, x, y, s);
    } else if ll > 0 {
      SameDiscount(F, m0, beta, ll - 1, x, y, s);
    }
  }

  lemma SameValues(m: Model, names: set<string>, x: Path, y: Path, s: int)
    requires IsModel(m) && NamesIn(m, names) && AgreeOn(names, x, y)
    ensures ValuesAt(m, x, s) == ValuesAt(m, y, s)
  {
  }

  lemma SameTangent(F: Funs, c: Plan, v: string, ll: int, t: nat, x: Path, y: Path, s: int)
    requires IsModel(c.m0) && NamesIn(c.m0, c.names) && AgreeOn(c.names, x, y)
    ensures TangentBy(F, c, v, ll, t, x, s) == TangentBy(F, c, v, ll, t, y, s)
  {
    hide IsModel, NamesIn, AgreeOn;
    SameValues(c.m0, c.names, x, y, s);
  }

  lemma SameGain(F: Funs, c: Plan, yi: nat, ll: int, x: Path, y: Path, s: int)
    requires IsModel(c.m0) && NamesIn(c.m0, c.names) && yi < |c.ys| && AgreeOn(c.names, x, y) && x(c.beta, 0) == y(c.beta, 0)
    ensures TangentGainAt(F, c, yi, ll, x, s) == TangentGainAt(F, c, yi, ll, y, s)
  {
    hide IsModel, NamesIn, TangentBy, Denote, Discount, AgreeOn, Mul;
    SameDiscount(F, c.m0, c.beta, ll, x, y, s);
    SameTangent(F, c, c.ys[yi], ll, c.tb, x, y, s - ll);
  }

  lemma SameCost(F: Funs, c: Plan, yi: nat, fi: nat, ll: int, x: Path, y: Path, s: int)
    requires IsModel(c.m0) && NamesIn(c.m0, c.names) && yi < |c.ys| && fi < |c.fset| && c.fset[fi] < |c.m0.formulas|
    requires AgreeOn(c.names, x, y) && x(c.beta, 0) == y(c.beta, 0) && x(MultName(c.fset[fi]), s - ll) == y(MultName(c.fset[fi]), s - ll)
    ensures TangentCostAt(F, c, yi, fi, ll, x, s) == TangentCostAt(F, c, yi, fi, ll, y, s)
  {
    hide IsModel, NamesIn, TangentBy, Denote, Discount, AgreeOn, Mul, MultName;
    SameDiscount(F, c.m0, c.beta, ll, x, y, s);
    SameTangent(F, c, c.ys[yi], ll, c.m0.formulas[c.fset[fi]], x, y, s - ll);
  }

  lemma SameGains(F: Funs, c: Plan, yi: nat, minlag: int, maxlead: int, x: Path, y: Path, s: int)
    requires PlanKnown(c, minlag, maxlead) && yi < |c.ys| && AgreeOn(c.names, x, y)
    ensures Sum(TangentGains(F, c, yi, minlag, x, s), 0, 1 - minlag) == Sum(TangentGains(F, c, yi, minlag, y, s), 0, 1 - minlag)
  {
    hide IsModel, NamesIn, TangentGainAt, AgreeOn, AtomsAreLeaves;
    assert x(c.beta, 0) == y(c.beta, 0) by { SameParameter(c.names, c.beta, x, y); }
    var f, g := TangentGains(F, c, yi, minlag, x, s), TangentGains(F, c, yi, minlag, y, s);
    forall k: nat | k < 1 - minlag
      ensures f(k) == g(k)
    {
      SameGain(F, c, yi, minlag + k, x, y, s);
    }
    SumSame(f, g, 0, 1 - minlag);
  }

  lemma SameParameter(names: set<string>, n: string, x: Path, y: Path)
    requires AgreeOn(names, x, y) && n in names
    ensures forall s: int :: x(n, s) == y(n, s)
  {
  }

  lemma SameCosts(F: Funs, c: Plan, yi: nat, fi: nat, minlag: int, maxlead: int, x: Path, y: Path, s: int)
    requires PlanKnown(c, minlag, maxlead) && yi < |c.ys| && fi < |c.fset| && AgreeOn(c.names, x, y)
    requires forall r: int :: x(MultName(c.fset[fi]), r) == y(MultName(c.fset[fi]), r)
    ensures Sum(TangentCosts(F, c, yi, fi, minlag, x, s), 0, 1 + maxlead - minlag) == Sum(TangentCosts(F, c, yi, fi, minlag, y, s), 0, 1 + maxlead - minlag)
  {
    hide IsModel, NamesIn, TangentCostAt, AgreeOn, AtomsAreLeaves, MultName;
    assert x(c.beta, 0) == y(c.beta, 0) by { SameParameter(c.names, c.beta, x, y); }
    var f, g := TangentCosts(F, c, yi, fi, minlag, x, s), TangentCosts(F, c, yi, fi, minlag, y, s);
    forall k: nat | k < 1 + maxlead - minlag
      ensures f(k) == g(k)
    {
      SameCost(F, c, yi, fi, minlag + k, x, y, s);
    }
    SumSame(f, g, 0, 1 + maxlead - minlag);
  }

  /** The paths agree on the old names and on the multipliers. */
  ghost predicate AgreeForPlan(c: Plan, x: Path, y: Path) {
    AgreeOn(c.names, x, y) && forall fi: nat, r: int :: fi < |c.fset| ==> x(MultName(c.fset[fi]), r) == y(MultName(c.fset[fi]), r)
  }

  lemma SameCondition(F: Funs, c: Plan, yi: nat, minlag: int, maxlead: int, x: Path, y: Path, s: int)
    requires PlanKnown(c, minlag, maxlead) && yi < |c.ys| && AgreeForPlan(c, x, y)
    ensures FirstOrderSum(F, c, yi, minlag, maxlead, x, s) == FirstOrderSum(F, c, yi, minlag, maxlead, y, s)
    ensures Smooth(F, c, yi, minlag, maxlead, x, s) <==> Smooth(F, c, yi, minlag, maxlead, y, s)
  {
    hide IsModel, NamesIn, TangentBy, AgreeOn, AtomsAreLeaves, TangentGains, TangentCosts, MultName;
    SameGains(F, c, yi, minlag, maxlead, x, y, s);
    var f, g := TangentCostsOf(F, c, yi, minlag, maxlead, x, s), TangentCostsOf(F, c, yi, minlag, maxlead, y, s);
    forall fi: nat | fi < |c.fset|
      ensures f(fi) == g(fi)
    {
      SameCosts(F, c, yi, fi, minlag, maxlead, x, y, s);
    }
    SumSame(f, g, 0, |c.fset|);
    SameSmooth(F, c, yi, minlag, maxlead, x, y, s);
  }

  lemma SameSmooth(F: Funs, c: Plan, yi: nat, minlag: int, maxlead: int, x: Path, y: Path, s: int)
    requires PlanKnown(c, minlag, maxlead) && yi < |c.ys| && AgreeOn(c.names, x, y)
    ensures Smooth(F, c, yi, minlag, maxlead, x, s) <==> Smooth(F, c, yi, minlag, maxlead, y, s)
  {
    hide IsModel, NamesIn, TangentBy, AgreeOn, AtomsAreLeaves;
    SameParameter(c.names, c.beta, x, y);
    forall ll: int
      ensures GainSmooth(F, c, yi, ll, x, s) <==> GainSmooth(F, c, yi, ll, y, s)
    {
      SameTangent(F, c, c.ys[yi], ll, c.tb, x, y, s - ll);
    }
    forall fi: nat, ll: int | fi < |c.fset|
      ensures CostSmooth(F, c, yi, fi, ll, x, s) <==> CostSmooth(F, c, yi, fi, ll, y, s)
    {
      SameTangent(F, c, c.ys[yi], ll, c.m0.formulas[c.fset[fi]], x, y, s - ll);
    }
  }

  lemma SameSolves(F: Funs, m: Model, names: set<string>, x: Path, y: Path)
    requires IsModel(m) && NamesIn(m, names) && AgreeOn(names, x, y) && Solves(F, m, x)
    ensures Solves(F, m, y)
  {
    forall i: nat, s: int | i < |m.formulas|
      ensures HoldsAt(F, m, y, i, s)
    {
      assert HoldsAt(F, m, x, i, s);
      AgreeValue(F, m, names, x, y, s, m.formulas[i]);
    }
  }

  lemma AgreesBack(c: Plan, x: Path, y: Path)
    requires AgreeForPlan(c, x, y)
    ensures AgreeForPlan(c, y, x)
  {
  }

  /** Solving the planner's problem only depends on the old names and the multipliers. */
  lemma SameProblem(F: Funs, c: Plan, minlag: int, maxlead: int, x: Path, y: Path)
    requires PlanKnown(c, minlag, maxlead) && AgreeForPlan(c, x, y)
    ensures SolvesPlan(F, c, minlag, maxlead, x) ==> SolvesPlan(F, c, minlag, maxlead, y)
    ensures SmoothAlong(F, c, minlag, maxlead, x) ==> SmoothAlong(F, c, minlag, maxlead, y)
  {
    hide IsModel, NamesIn, AtomsAreLeaves, FirstOrderSum, Smooth, Solves, MultName;
    forall yi: nat, s: int | yi < |c.ys|
      ensures FirstOrderSum(F, c, yi, minlag, maxlead, x, s) == FirstOrderSum(F, c, yi, minlag, maxlead, y, s)
      ensures Smooth(F, c, yi, minlag, maxlead, x, s) <==> Smooth(F, c, yi, minlag, maxlead, y, s)
    {
      SameCondition(F, c, yi, minlag, maxlead, x, y, s);
    }
    if Solves(F, c.m0, x) {
      SameSolves(F, c.m0, c.names, x, y);
    }
  }

  // ----- the main result -----

  /** Along a path on which the auxiliary equations hold, the built equations hold exactly when the equations and the
      first-order conditions do. */
  lemma SolvesWithAuxiliaries(F: Funs, c: Plan, m: Model, names: set<string>, auxMap: map<string, nat>, minlag: int, maxlead: int, y: Path)
    requires Planned(c, m, names, auxMap, minlag, maxlead) && Lawful(F) && SmoothAlong(F, c, minlag, maxlead, y)
    ensures Solves(F, m, y) <==> SolvesPlan(F, c, minlag, maxlead, y) && AuxHold(F, m, |c.m0.formulas| + |c.ys|, y)
  {
    hide IsModel, TermValue, FirstOrderSum, Smooth, FirstOrder, AuxDetermined, AuxesStand, AllDeclared, AtomsAreLeaves, GrowsTo;
    var n := |c.m0.formulas|;
    GrownSolves(F, c.m0, m, y);
    if AuxHold(F, m, n + |c.ys|, y) {
      forall yi: nat, s: int | yi < |c.ys|
        ensures HoldsAt(F, m, y, n + yi, s) <==> FirstOrderSum(F, c, yi, minlag, maxlead, y, s) == 0.0
      {
        assert FirstOrder(c, m, minlag, maxlead, yi) && Smooth(F, c, yi, minlag, maxlead, y, s);
        FirstOrderInTangents(F, c, m, minlag, maxlead, yi, y, s);
      }
      OnlyConditions(F, c, m, minlag, maxlead, y);
    }
  }

  lemma OnlyConditions(F: Funs, c: Plan, m: Model, minlag: int, maxlead: int, y: Path)
    requires PlanKnown(c, minlag, maxlead) && IsModel(m) && |c.m0.formulas| + |c.ys| <= |m.formulas| && AuxHold(F, m, |c.m0.formulas| + |c.ys|, y)
    requires forall yi: nat, s: int :: yi < |c.ys| ==>
      (HoldsAt(F, m, y, |c.m0.formulas| + yi, s) <==> FirstOrderSum(F, c, yi, minlag, maxlead, y, s) == 0.0)
    ensures (forall i: nat, s: int :: |c.m0.formulas| <= i < |m.formulas| ==> HoldsAt(F, m, y, i, s)) <==>
      (forall yi: nat, s: int :: yi < |c.ys| ==> FirstOrderSum(F, c, yi, minlag, maxlead, y, s) == 0.0)
  {
    hide IsModel, HoldsAt, FirstOrderSum, AtomsAreLeaves;
    var n := |c.m0.formulas|;
    if forall yi: nat, s: int :: yi < |c.ys| ==> FirstOrderSum(F, c, yi, minlag, maxlead, y, s) == 0.0 {
      forall i: nat, s: int | n <= i < |m.formulas|
        ensures HoldsAt(F, m, y, i, s)
      {
        if i < n + |c.ys| {
          var yi: nat := i - n;
          assert FirstOrderSum(F, c, yi, minlag, maxlead, y, s) == 0.0;
        }
      }
    }
  }

  /** Paths that only differ in auxiliary variables agree on the old names and the multipliers. */
  lemma OffAuxiliaries(c: Plan, m: Model, auxMap: map<string, nat>, x: Path, y: Path)
    requires AuxesStand(c, m, auxMap) && AgreeOff(auxMap.Keys, x, y)
    ensures AgreeForPlan(c, x, y)
  {
    hide MultName, AuxLagName, Means, SpecF;
    forall n: string | n in auxMap
      ensures n !in c.names && forall f: nat :: n != MultName(f)
    {
      AuxIsNoMult(c, m, n, auxMap[n]);
    }
  }

  lemma AuxIsNoMult(c: Plan, m: Model, n: string, t: nat)
    requires AuxStands(c, m, n, t)
    ensures forall f: nat :: n != MultName(f)
  {
    hide MultName, AuxLagName, Means, SpecF;
    var cell: (nat, nat, int) :| StandsForCell(c, m, n, t, cell);
    forall f: nat
      ensures n != MultName(f)
    {
      KindsApart(0, 0, 0, cell.0, c.fset[cell.1], -cell.2, f);
    }
  }

  /** The path has values for the auxiliary variables with which it solves the planned model. */
  ghost predicate SolvesPlanned(F: Funs, m: Model, auxMap: map<string, nat>, x: Path)
    requires IsModel(m)
  {
    exists y: Path :: AgreeOff(auxMap.Keys, x, y) && Solves(F, m, y)
  }

  /** A path solves the model that the planner leaves, with some values of the auxiliary variables, exactly when it solves
      the equations and all first-order conditions. */
  lemma PlannedExactly(F: Funs, c: Plan, m: Model, names: set<string>, auxMap: map<string, nat>, minlag: int, maxlead: int, x: Path)
    requires Planned(c, m, names, auxMap, minlag, maxlead) && Lawful(F) && SmoothAlong(F, c, minlag, maxlead, x)
    ensures SolvesPlanned(F, m, auxMap, x) <==> SolvesPlan(F, c, minlag, maxlead, x)
  {
    hide IsModel, SolvesPlan, SmoothAlong, AtomsAreLeaves, NamesIn, AuxDetermined, AuxesStand, AllDeclared, GrowsTo, FirstOrder, AuxHold, Solves;
    var first := |c.m0.formulas| + |c.ys|;
    if SolvesPlan(F, c, minlag, maxlead, x) {
      SmoothLags(F, c, minlag, maxlead, x);
      AuxiliariesExist(F, c, m, auxMap, first, x);
      var y: Path :| AgreeOff(auxMap.Keys, x, y) && AuxHold(F, m, first, y);
      OffAuxiliaries(c, m, auxMap, x, y);
      SameProblem(F, c, minlag, maxlead, x, y);
      SolvesWithAuxiliaries(F, c, m, names, auxMap, minlag, maxlead, y);
    }
    if SolvesPlanned(F, m, auxMap, x) {
      var y: Path :| AgreeOff(auxMap.Keys, x, y) && Solves(F, m, y);
      OffAuxiliaries(c, m, auxMap, x, y);
      AgreesBack(c, x, y);
      SameProblem(F, c, minlag, maxlead, x, y);
      SolvesWithAuxiliaries(F, c, m, names, auxMap, minlag, maxlead, y);
      SameProblem(F, c, minlag, maxlead, y, x);
    }
  }

  /** The path has values for all new variables but the multipliers with which it solves the final model. */
  ghost predicate SolvesFinal(F: Funs, final: Model, names: set<string>, x: Path)
    requires IsModel(final)
  {
    exists z: Path :: AgreeOn(names, x, z) && Solves(F, final, z)
  }

  /** The same for the model after the elimination of leads and lags: its solutions are exactly the solutions of the
      planner's problem, each with determined values of all other variables. */
  lemma FinalExactly(F: Funs, c: Plan, m: Model, names: set<string>, auxMap: map<string, nat>, minlag: int, maxlead: int,
                     final: Model, finalNames: set<string>, x: Path)
    requires Planned(c, m, names, auxMap, minlag, maxlead) && Conservative(m, names, final, finalNames)
    requires Lawful(F) && SmoothAlong(F, c, minlag, maxlead, x)
    ensures SolvesFinal(F, final, names - auxMap.Keys, x) <==> SolvesPlan(F, c, minlag, maxlead, x)
    ensures forall z: Path, w: Path :: Solves(F, final, z) && Solves(F, final, w) && AgreeOn(names - auxMap.Keys, x, z) && AgreeOn(names - auxMap.Keys, x, w) ==>
      AgreeOn(finalNames, z, w)
  {
    hide IsModel, SolvesPlan, SmoothAlong, AtomsAreLeaves, NamesIn, AuxDetermined, AuxesStand, AllDeclared, GrowsTo, FirstOrder, AuxHold, Solves;
    PlannedExactly(F, c, m, names, auxMap, minlag, maxlead, x);
    if SolvesPlan(F, c, minlag, maxlead, x) {
      var y: Path :| AgreeOff(auxMap.Keys, x, y) && Solves(F, m, y);
      assert ExtendsTo(F, names, final, y);
      var z: Path :| AgreeOn(names, y, z) && Solves(F, final, z);
      assert AgreeOn(names - auxMap.Keys, x, z);
    }
    if SolvesFinal(F, final, names - auxMap.Keys, x) {
      var z: Path :| AgreeOn(names - auxMap.Keys, x, z) && Solves(F, final, z);
      FinalSolvesPlan(F, c, m, names, auxMap, minlag, maxlead, x, z);
    }
    forall z: Path, w: Path | Solves(F, final, z) && Solves(F, final, w) && AgreeOn(names - auxMap.Keys, x, z) && AgreeOn(names - auxMap.Keys, x, w)
      ensures AgreeOn(finalNames, z, w)
    {
      AuxiliariesAgree(F, c, m, names, auxMap, minlag, maxlead, z, w);
    }
  }

  /** Wherever everything is differentiable, the solutions of the final model are the solutions of the planner's problem. */
  ghost predicate SolvesExactly(c: Plan, minlag: int, maxlead: int, final: Model, names: set<string>) {
    && Constrained(c) && minlag <= 0 <= maxlead && IsModel(final)
    && forall F: Funs, x: Path :: Lawful(F) && SmoothAlong(F, c, minlag, maxlead, x) ==>
         (SolvesFinal(F, final, names, x) <==> SolvesPlan(F, c, minlag, maxlead, x))
  }

  lemma AllExactly(c: Plan, m: Model, names: set<string>, auxMap: map<string, nat>, minlag: int, maxlead: int, final: Model, finalNames: set<string>)
    requires Planned(c, m, names, auxMap, minlag, maxlead) && Conservative(m, names, final, finalNames)
    ensures SolvesExactly(c, minlag, maxlead, final, names - auxMap.Keys)
  {
    hide SolvesPlan, SmoothAlong, SolvesFinal, AtomsAreLeaves, NamesIn, AuxDetermined, AuxesStand, AllDeclared, GrowsTo, FirstOrder, Restricts, Extends, Determines;
    forall F: Funs, x: Path | Lawful(F) && SmoothAlong(F, c, minlag, maxlead, x)
      ensures SolvesFinal(F, final, names - auxMap.Keys, x) <==> SolvesPlan(F, c, minlag, maxlead, x)
    {
      FinalExactly(F, c, m, names, auxMap, minlag, maxlead, final, finalNames, x);
    }
  }

  lemma FinalSolvesPlan(F: Funs, c: Plan, m: Model, names: set<string>, auxMap: map<string, nat>, minlag: int, maxlead: int, x: Path, z: Path)
    requires Planned(c, m, names, auxMap, minlag, maxlead) && Lawful(F) && SmoothAlong(F, c, minlag, maxlead, x)
    requires AgreeOn(names - auxMap.Keys, x, z) && Solves(F, m, z)
    ensures SolvesPlan(F, c, minlag, maxlead, x)
  {
    hide IsModel, SolvesPlan, SmoothAlong, AtomsAreLeaves, NamesIn, AuxDetermined, GrowsTo, FirstOrder, AuxHold, Solves, MultName;
    assert AgreeForPlan(c, x, z) by {
      forall n: string | n in auxMap
        ensures n !in c.names && forall f: nat :: n != MultName(f)
      {
        AuxIsNoMult(c, m, n, auxMap[n]);
      }
    }
    AgreesBack(c, x, z);
    SameProblem(F, c, minlag, maxlead, x, z);
    SolvesWithAuxiliaries(F, c, m, names, auxMap, minlag, maxlead, z);
    SameProblem(F, c, minlag, maxlead, z, x);
  }

  lemma AuxiliariesAgree(F: Funs, c: Plan, m: Model, names: set<string>, auxMap: map<string, nat>, minlag: int, maxlead: int, z: Path, w: Path)
    requires Planned(c, m, names, auxMap, minlag, maxlead) && Solves(F, m, z) && Solves(F, m, w) && AgreeOn(names - auxMap.Keys, z, w)
    ensures AgreeOn(names, z, w)
  {
    hide IsModel, Constrained, AtomsAreLeaves, NamesIn, GrowsTo, FirstOrder, AuxStands, AuxHold, Solves, AuxDefined, AuxExtends;
    var first := |c.m0.formulas| + |c.ys|;
    SolvesAuxiliaries(F, m, first, z);
    SolvesAuxiliaries(F, m, first, w);
    assert AgreeOn(c.names, z, w);
    assert AgreeOn(c.names + auxMap.Keys, z, w);
  }

  lemma SolvesAuxiliaries(F: Funs, m: Model, first: nat, z: Path)
    requires IsModel(m) && Solves(F, m, z)
    ensures AuxHold(F, m, first, z)
  {
  }
}
