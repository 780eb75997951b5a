/** The planner differentiates its objective by current and lagged variables only: what this means for objectives with leads. */
module ObjectiveLeads {
  import opened Wrappers
  import opened Reals
  import opened RealSums
  import opened Jets
  import opened Terms
  import opened DerivativeRules
  import opened DynamicAtomsModule
  import opened ModelMeaning
  import opened MixedDerivatives
  import opened PlannerMeaning
  import opened PlannerPasses
  import opened PlannerConditions

  /** The first-order condition with the derivatives of the objective by all lags and leads. */
  ghost function FullSum(F: Funs, c: Plan, yi: nat, minlag: int, maxlead: int, path: Path, s: int): real
    requires Constrained(c) && yi < |c.ys| && minlag <= 0 <= maxlead
  {
    Sum(TangentGains(F, c, yi, minlag, path, s), 0, 1 + maxlead - minlag) + Sum(TangentCostsOf(F, c, yi, minlag, maxlead, path, s), 0, |c.fset|)
  }

  /** The discounted derivatives of the objective by the leads of the variable. */
  ghost function LeadGains(F: Funs, c: Plan, yi: nat, minlag: int, maxlead: int, path: Path, s: int): real
    requires Constrained(c) && yi < |c.ys| && minlag <= 0 <= maxlead
  {
    Sum(TangentGains(F, c, yi, minlag, path, s), 1 - minlag, 1 + maxlead - minlag)
  }

  /** The variable occurs in the objective at this lead. */
  ghost predicate OccursAt(c: Plan, y: string, ll: int)
    requires IsModel(c.m0)
  {
    c.tb < |c.m0.terms| && Atom(y, ll) in c.vars && c.vars[Atom(y, ll)] in Leaves(c.m0.terms, c.tb)
  }

  /** What the planner builds misses exactly the leads. */
  lemma LeadsAreMissed(F: Funs, c: Plan, yi: nat, minlag: int, maxlead: int, path: Path, s: int)
    requires Constrained(c) && yi < |c.ys| && minlag <= 0 <= maxlead
    ensures FullSum(F, c, yi, minlag, maxlead, path, s) ==
      FirstOrderSum(F, c, yi, minlag, maxlead, path, s) + LeadGains(F, c, yi, minlag, maxlead, path, s)
  {
    hide IsModel, TangentGains, TangentCostsOf;
    SumSplit(TangentGains(F, c, yi, minlag, path, s), 0, 1 - minlag, 1 + maxlead - minlag);
  }

  /** The tangent in the direction of a leaf that does not occur is zero. */
  lemma AbsentTangent(F: Funs, c: Plan, y: string, ll: int, path: Path, s: int)
    requires AtomsAreLeaves(c) && Lawful(F) && !OccursAt(c, y, ll)
    ensures TangentOr0(F, c, y, ll, c.tb, path, s) == 0.0
  {
    if TangentBy(F, c, y, ll, c.tb, path, s).Some? && Atom(y, ll) in c.vars {
      var u, p, val := c.vars[Atom(y, ll)], PointAt(c.m0, path, s), ValuesAt(c.m0, path, s);
      assert IsLeaf(c.m0.terms, u);
      DerivIsTangent(F, c.m0.terms, p, val, u, c.tb);
      AbsentLeaf(F, c.m0.terms, p, u, c.tb);
    }
  }

  lemma AbsentGain(F: Funs, c: Plan, yi: nat, ll: int, path: Path, s: int)
    requires AtomsAreLeaves(c) && Lawful(F) && yi < |c.ys| && !OccursAt(c, c.ys[yi], ll)
    ensures TangentGainAt(F, c, yi, ll, path, s) == 0.0
  {
    hide IsModel, TangentBy, TangentOr0, Denote, Discount, Mul;
    AbsentTangent(F, c, c.ys[yi], ll, path, s - ll);
    MulUnits(ValueOf(F, c.m0, Discount(c.beta, ll), path, s));
  }

  /** Over an objective without leads of the variable the built condition is the full one. */
  lemma ExactWithoutLeads(F: Funs, c: Plan, yi: nat, minlag: int, maxlead: int, path: Path, s: int)
    requires Constrained(c) && AtomsAreLeaves(c) && Lawful(F) && yi < |c.ys| && minlag <= 0 <= maxlead
    requires forall ll: int :: 0 < ll <= maxlead ==> !OccursAt(c, c.ys[yi], ll)
    ensures FirstOrderSum(F, c, yi, minlag, maxlead, path, s) == FullSum(F, c, yi, minlag, maxlead, path, s)
  {
    hide IsModel, TangentGainAt, TangentCostsOf, OccursAt;
    LeadsAreMissed(F, c, yi, minlag, maxlead, path, s);
    var gains := TangentGains(F, c, yi, minlag, path, s);
    forall k: nat | 1 - minlag <= k < 1 + maxlead - minlag
      ensures gains(k) == 0.0
    {
      AbsentGain(F, c, yi, minlag + k, path, s);
    }
    SumZero(gains, 1 - minlag, 1 + maxlead - minlag);
  }

  /** Over an objective with one lead of the variable the built condition is the full one exactly where the derivative
      by this lead is zero. */
  lemma ExactWithOneLead(F: Funs, c: Plan, yi: nat, minlag: int, maxlead: int, lead: int, path: Path, s: int)
    requires Constrained(c) && AtomsAreLeaves(c) && Lawful(F) && yi < |c.ys| && minlag <= 0 < lead <= maxlead && path(c.beta, 0) != 0.0
    requires forall ll: int :: 0 < ll <= maxlead && ll != lead ==> !OccursAt(c, c.ys[yi], ll)
    requires GainSmooth(F, c, yi, lead, path, s)
    ensures FirstOrderSum(F, c, yi, minlag, maxlead, path, s) == FullSum(F, c, yi, minlag, maxlead, path, s) <==>
      TangentBy(F, c, c.ys[yi], lead, c.tb, path, s - lead) == Some(0.0)
  {
    hide IsModel, TangentGainAt, TangentCostsOf, OccursAt, TangentBy;
    LeadsAreMissed(F, c, yi, minlag, maxlead, path, s);
    var gains, at := TangentGains(F, c, yi, minlag, path, s), lead - minlag;
    forall k: nat | 1 - minlag <= k < 1 + maxlead - minlag && k != at
      ensures gains(k) == 0.0
    {
      AbsentGain(F, c, yi, minlag + k, path, s);
    }
    SumSplit(gains, 1 - minlag, at, 1 + maxlead - minlag);
    SumFirst(gains, at, 1 + maxlead - minlag);
    SumZero(gains, 1 - minlag, at);
    SumZero(gains, at + 1, 1 + maxlead - minlag);
    GainOfLead(F, c, yi, lead, path, s);
  }

  lemma GainOfLead(F: Funs, c: Plan, yi: nat, lead: int, path: Path, s: int)
    requires IsModel(c.m0) && yi < |c.ys| && lead > 0 && path(c.beta, 0) != 0.0 && GainSmooth(F, c, yi, lead, path, s)
    ensures TangentGainAt(F, c, yi, lead, path, s) == 0.0 <==> TangentBy(F, c, c.ys[yi], lead, c.tb, path, s - lead) == Some(0.0)
  {
    hide IsModel, TangentBy, Denote, Discount, Mul;
    DiscountIsPower(F, c.m0, c.beta, lead, path, s);
    var discount, tangent := ValueOf(F, c.m0, Discount(c.beta, lead), path, s), TangentOr0(F, c, c.ys[yi], lead, c.tb, path, s - lead);
    MulUnits(RealPower(path(c.beta, 0), lead));
    NoZeroProduct(discount, tangent);
  }

  lemma NoZeroProduct(a: real, b: real)
    requires a != 0.0
    ensures Mul(a, b) == 0.0 <==> b == 0.0
  {
  }

  // ----- two objectives with leads -----

  /** The objective y(+1): the tree only has its leaf and the discount parameter. */
  function LeadPlan(): Plan {
    Plan(Model([Nulary, Nulary, Nulary, Nulary, Nulary, Nulary], [], map[4 := Atom("y", 1), 5 := Atom("b", 0)], map[], {"b"}),
         map[Atom("y", 1) := 4, Atom("b", 0) := 5], {"y", "b"}, ["y"], [], 4, "b")
  }

  /** The built condition holds on every path, while the full one never does: its value is one over the discount factor. */
  lemma LeadIsLost(F: Funs, path: Path, s: int)
    requires path("b", 0) != 0.0
    ensures Constrained(LeadPlan()) && AtomsAreLeaves(LeadPlan())
    ensures FirstOrderSum(F, LeadPlan(), 0, 0, 1, path, s) == 0.0
    ensures Mul(FullSum(F, LeadPlan(), 0, 0, 1, path, s), path("b", 0)) == 1.0
  {
    var c := LeadPlan();
    var gains, costs := TangentGains(F, c, 0, 0, path, s), TangentCostsOf(F, c, 0, 0, 1, path, s);
    assert Atom("y", 0) !in c.vars;
    assert gains(0) == 0.0;
    assert TangentBy(F, c, "y", 1, 4, path, s - 1) == Some(1.0);
    DiscountIsPower(F, c.m0, "b", 1, path, s);
    assert Sum(gains, 0, 1) == Sum(gains, 0, 0) + gains(0);
    assert Sum(gains, 0, 2) == Sum(gains, 0, 1) + gains(1);
    assert Sum(costs, 0, 0) == 0.0;
  }

  /** The objective b*y(+2) - y(+1), where b is the discount factor. */
  function CancellingPlan(): Plan {
    Plan(Model([Nulary, Nulary, Nulary, Nulary, Nulary, Nulary, Nulary, Binary(TIMES, 6, 5), Binary(MINUS, 7, 4)], [],
               map[4 := Atom("y", 1), 5 := Atom("y", 2), 6 := Atom("b", 0)], map[], {"b"}),
         map[Atom("y", 1) := 4, Atom("y", 2) := 5, Atom("b", 0) := 6], {"y", "b"}, ["y"], [], 8, "b")
  }

  lemma CancellingIsPlan()
    ensures Constrained(CancellingPlan()) && AtomsAreLeaves(CancellingPlan())
  {
  }

  lemma CancellingOccurs()
    ensures IsModel(CancellingPlan().m0) && OccursAt(CancellingPlan(), "y", 1) && OccursAt(CancellingPlan(), "y", 2)
  {
    CancellingIsPlan();
    hide IsModel;
    var terms := CancellingPlan().m0.terms;
    assert Leaves(terms, 7) == Leaves(terms, 6) + Leaves(terms, 5) == {6, 5};
    assert Leaves(terms, 8) == Leaves(terms, 7) + Leaves(terms, 4);
  }

  lemma CancellingTangents(F: Funs, path: Path, s: int)
    ensures IsModel(CancellingPlan().m0)
    ensures TangentBy(F, CancellingPlan(), "y", 1, 8, path, s) == Some(-1.0)
    ensures TangentBy(F, CancellingPlan(), "y", 2, 8, path, s) == Some(path("b", 0))
  {
    CancellingIsPlan();
    hide Mul, Eval, IsModel, WellFormed;
    var c := CancellingPlan();
    var val, b := ValuesAt(c.m0, path, s), path("b", 0);
    assert val.Keys == {4, 5, 6} && val[6] == b;
    MulUnits(b);
    MulUnits(val[5]);
    TermsOfCancelling(F, val, 4);
    TermsOfCancelling(F, val, 5);
    assert Mul(b, 0.0) + Mul(0.0, val[5]) - 1.0 == -1.0;
    assert Mul(b, 1.0) + Mul(0.0, val[5]) - 0.0 == b;
  }

  lemma TermsOfCancelling(F: Funs, val: map<nat, real>, u: nat)
    requires {4, 5, 6} <= val.Keys
    ensures WellFormed(CancellingPlan().m0.terms)
    ensures Eval(F, CancellingPlan().m0.terms, At(val, u), 8) ==
      JetBinary(F, MINUS, JetBinary(F, TIMES, At(val, u)[6], At(val, u)[5]), At(val, u)[4])
  {
    hide Mul;
    var terms := CancellingPlan().m0.terms;
    assert Eval(F, terms, At(val, u), 7) == JetBinary(F, TIMES, At(val, u)[6], At(val, u)[5]);
  }

  /** Both leads occur, and still the built condition is the full one on every path. */
  lemma LeadsMayCancel(F: Funs, path: Path, s: int)
    requires path("b", 0) != 0.0
    ensures Constrained(CancellingPlan()) && AtomsAreLeaves(CancellingPlan())
    ensures OccursAt(CancellingPlan(), "y", 1) && OccursAt(CancellingPlan(), "y", 2)
    ensures FirstOrderSum(F, CancellingPlan(), 0, 0, 2, path, s) == FullSum(F, CancellingPlan(), 0, 0, 2, path, s)
  {
    hide Mul, Div, IsModel, Constrained, TangentBy, FirstOrderSum, FullSum;
    CancellingIsPlan();
    CancellingOccurs();
    CancellingTangents(F, path, s - 1);
    CancellingTangents(F, path, s - 2);
    var c := CancellingPlan();
    assert IsModel(c.m0) by { ConstrainedIsModel(c); }
    var gains, b := TangentGains(F, c, 0, 0, path, s), path("b", 0);
    DiscountIsPower(F, c.m0, "b", 1, path, s);
    var d := Denote(F, c.m0, Discount("b", 1), path, s).value;
    assert Denote(F, c.m0, Discount("b", 2), path, s) == Some(Div(d, b));
    DivByIt(d, b);
    MinusOnce(d);
    LeadsAreMissed(F, c, 0, 0, 2, path, s);
    assert gains(1) == Mul(d, -1.0) && gains(2) == Mul(Div(d, b), b);
    SumLast(gains, 1, 2);
    SumLast(gains, 1, 1);
    SumEmpty(gains, 1);
  }

  lemma ConstrainedIsModel(c: Plan)
    requires Constrained(c)
    ensures IsModel(c.m0)
  {
  }

  lemma MinusOnce(d: real)
    ensures Mul(d, -1.0) == -d
  {
  }
}
