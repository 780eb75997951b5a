# Verification of the symbolic and combinatorial core of dynare++

dynare++ solves stochastic dynamic models. Before any linear algebra it compiles the model: it builds
expression trees, differentiates them, rewrites the equations to lags and leads of at most one, and schedules the
unknown derivatives; and it integrates with quadratures that enumerate points. This project models these parts in
Dafny and proves that they do what the rest of the program relies on.

- **Expression trees** (`Jets`, `Terms`, `DerivativeRules`, `OperationTree`, `TreeMeaning`, `EvalTree`,
  `MixedDerivatives`, `Renaming`). `OperationTree` and `EvalTree` are classes with the source's fields. The meaning of a term at a
  point is a jet: a value and a tangent, each possibly undefined, over arbitrary transcendental functions that satisfy
  a few laws (`Lawful`). Everything built *represents* the plain expression: wherever the expression is defined, the
  built term is defined and equal, in value and tangent.
- **Partial derivatives** (`MultiIndices`, `FormulaDerivatives`, `StoredDerivatives`).
- **Model rewriting** (`DynamicAtoms`, `ModelMeaning`, `FormulaParser`, `LagElimination`, `AtomSubstitutions`,
  `SubstituteAll`, `AuxNames`, `ModelSteps`, `ShiftedTerms`, `DynareModel`, `ForwardMeaning`, `ForwardSteps`, `ForwSubstBuilder`, `FinalJob`). A
  trajectory gives each name a value at every integer time, and solves a model when every equation is zero at every
  time. `Conservative` says that the solutions of two models are the same on the old names and that the new names are
  determined by the old ones.
- **The planner's problem** (`PlannerMeaning`, `PlannerPasses`, `PlannerConditions`, `PlannerBuilder`, `PlannedSolutions`,
  `ObjectiveLeads`). Each cell of the matrices of
  terms is tied to a formula on paper (`Spec`) after every pass.
- **The perturbation schedule** (`Symmetries`, `SigmaChoices`, `KOrder`). The containers are sets of symmetries. A ghost ledger records
  which terms of the chain rule each call adds to a derivative of G, given what the containers hold at that moment.
- **Quadrature** (`RealSums`, `Odometers`, `Grids`, `Portions`, `ProductQuadrature`, `SymmetrySets`, `Combination`,
  `SmolyakQuadrature`). One-dimensional rules are arbitrary tables of points and weights.
- **Quasi Monte Carlo** (`RadicalInverse`, `Equidistribution`, `HaltonSequence`).
- **Variable ordering** (`VarOrdering`, `DynareJacobian`).
- **Shock integration** (`DoubleSums`, `DividedPowers`, `IntegDerivs`).

`dafny verify dfyconfig.toml` checks the whole project.

Places where the code differs from its own comments or where a property holds only in part:

- A zero base makes the tree simplify a power to zero, while the evaluator returns one for a zero exponent. Powers have a
  meaning only for positive bases; `PowerOfZero` shows that the two agree exactly for positive exponents.
- `x/x` is simplified to one, while the evaluator returns zero when `x` is zero; `QuotientBySelf` shows that the two agree
  exactly for finite values other than zero, and for the NaN term itself, which stays NaN; `DisagreeAtZero` gives the input for both.
- The planner differentiates its objective by current and lagged variables only (`dynare++/src/planner_builder.cc:96-108`), although an
  objective may have leads; their terms of the first-order condition are lost. The built condition is the full one exactly
  where the discounted derivatives by the leads add up to zero (`LeadsAreMissed`): always when the variable has no lead in the objective
  (`ExactWithoutLeads`), and with one lead exactly where the derivative by it is zero (`ExactWithOneLead`). `LeadIsLost` gives a failing
  objective. That a lead occurs does not alone decide it: several leads may cancel (`LeadsMayCancel`).
- The comparison of multi-indices over different numbers of variables builds an exception but does not throw it
  (`dynare++/parser/cc/formula_parser.cc:359-361`); the comparison ignores the numbers of variables, and so does `LessThan`.
- The selector of non-linear terms never reaches its last test, so a quotient always counts as non-linear
  (`dynare++/src/dynare_model.cc:656-669`). The model does the same; the substitution is sound for any selection.
- The loop over the discounts of the constraints visits lead zero twice (`dynare++/src/planner_builder.cc:213-229`); the power is one then.
- The integrated derivatives leave out the constant term (`dynare++/kord/korder_stoch.hh:112`), which `IntegratesExpectation` names.
- Warnock's scheme also permutes leading zeros that a number does not have, so the first points do not fill the cells
  evenly; `EvenExactly` gives the exact condition on the first number.

## Model

| member | source | states |
|---|---|---|
| OperationTrees.OperationTree.AddNulary | dynare++/parser/cc/tree.cc:43-54 | a new leaf is appended; the invariant of the tree (operands below, exact hash map, sorted commutative operands, exact leaf incidence) holds |
| OperationTrees.OperationTree.AddUnary | dynare++/parser/cc/tree.cc:56-90 | the returned term refines the operation for all lawful functions at all points, value and tangent, whether simplified, shared or new; the invariant holds |
| OperationTrees.OperationTree.AddBinary | dynare++/parser/cc/tree.cc:92-179 | the same for binary operations, with the commutative operands sorted and `0-x` stored as a negation |
| Terms.QuickUnarySound | dynare++/parser/cc/tree.cc:59-78 | each unary simplification has the value and tangent of the operation wherever that is defined |
| Terms.QuickBinarySound | dynare++/parser/cc/tree.cc:94-165 | each binary simplification has the value and tangent of the operation wherever that is defined |
| Terms.QuickUnaryExact | dynare++/parser/cc/tree.cc:59-73 | a unary simplification has the value of the operation, defined in the same places; it is NaN exactly for the logarithm of zero and for an operation on NaN |
| Terms.QuickBinaryExact | dynare++/parser/cc/tree.cc:94-148 | a binary simplification may have a value where the operation has none only for a zero factor, a zero numerator, a term over itself, and a base or exponent zero or one; an operation on NaN and a quotient by zero are NaN |
| DerivativeRules.RuleIsDerivative | dynare++/parser/cc/tree.cc:212-330 | a term that represents the differentiation rule of a term represents its derivative; covers every operation code |
| OperationTrees.OperationTree.AddDerivative | dynare++/parser/cc/tree.cc:182-335 | fails exactly on an unknown term; otherwise the built term represents the derivative, the tree has only grown, and the derivative is then known |
| OperationTrees.OperationTree.Differentiate | dynare++/parser/cc/tree.cc:185-335 | leaf, incidence shortcut, cache and rules all give a term that represents the derivative; cached derivatives of other terms stay |
| MixedDerivatives.DerivIsTangent | dynare++/parser/cc/tree.cc:182-335 | the plain derivative of a term by a leaf is its dual-number tangent in the direction of that leaf |
| MixedDerivatives.BuiltDerivativeIsTangent | dynare++/parser/cc/tree.cc:182-335 | the built derivative term has the tangent as its value wherever the tangent is defined, despite simplification and sharing |
| MixedDerivatives.MixedPartialsAgree | dynare++/parser/cc/tree.cc:182-335 | differentiating by u then v or by v then u gives terms of equal value wherever the mixed derivative is defined |
| OperationTrees.OperationTree.AddSubstitution | dynare++/parser/cc/tree.cc:344-382 | within a tree or across two trees: fails exactly when a leaf of the other tree has no image; otherwise the result is the image of the term, and the invariant holds |
| TreeMeaning.SubstitutionMeaning | dynare++/parser/cc/tree.cc:344-382 | evaluating the substituted term is evaluating the term with its leaves revalued through the substitution |
| TreeMeaning.ImageRefines | dynare++/parser/cc/tree.cc:344-382 | the same for substitutions of inner terms: the result refines the substituted expression |
| Renaming.ImageExact | dynare++/parser/cc/tree.cc:344-382 | when different leaves go to different leaves, the substituted term has exactly the value of the renamed term, defined in the same places |
| OperationTrees.OperationTree.Nularify | dynare++/parser/cc/tree.cc:385-399 | the term becomes a leaf, its hash entry is removed, and the whole invariant holds again |
| OperationTrees.OperationTree.UpdateNulIncidenceAfterNularify | dynare++/parser/cc/tree.cc:498-543 | the one-pass repair leaves the exact set of reachable leaves at every term |
| TreeMeaning.NularifyMeaning | dynare++/parser/cc/tree.cc:385-399 | turning a term into a leaf keeps the value of every term when the leaf is given the old value |
| OperationTrees.OperationTree.ForgetDerivativeMaps | dynare++/parser/cc/tree.cc:478-482 | all caches are empty and the tree is valid again, so derivatives may be taken after leaves were turned |
| EvalTrees.EvalTree.Create | dynare++/parser/cc/tree.cc:545-567 | fails exactly when the last term leaves out a special term or lies outside of the tree; a new evaluator is coherent |
| EvalTrees.EvalTree.SetNulary | dynare++/parser/cc/tree.cc:576-587 | fails exactly on an index that is no settable leaf; coherence is kept when the leaf had no value yet or no cached term depends on it |
| EvalTrees.EvalTree.Eval | dynare++/parser/cc/tree.cc:590-712 | from any coherent cache the result is the plain recursive short-circuit value, and the cache stays coherent |
| EvalTrees.EvaluatesOperation | dynare++/parser/cc/tree.cc:602-712 | on all machine numbers an operation is cut short only by a zero of its deciding operand, and is otherwise the operation of the machine on the values of its operands |
| EvalTrees.LazyIsPlain | dynare++/parser/cc/tree.cc:602-712 | without a short circuit inside, evaluation is plain evaluation, infinities and NaN included |
| EvalTrees.NaturalPower | dynare++/parser/cc/tree.cc:687-699 | with powers of natural exponents as products, a power evaluates to the product whatever the sign of its base |
| EvalTrees.NegativeBase | dynare++/parser/cc/tree.cc:687-699 | x^2 at -2 evaluates to 4 |
| EvalTrees.LazyRefinesStrict | dynare++/parser/cc/tree.cc:590-712 | short-circuit evaluation returns the real value wherever the strict one is defined |
| EvalTrees.EvaluatesAsWritten | dynare++/parser/cc/tree.cc:590-712 | a term built for an expression evaluates to the value of the expression wherever that is defined |
| EvalTrees.PowerOfZero | dynare++/parser/cc/tree.cc:142-143 | with the powers of zero as the C library has them, the simplification of a power of zero agrees with the evaluator exactly for positive exponents |
| EvalTrees.QuotientBySelf | dynare++/parser/cc/tree.cc:130-131 | the simplification of a term over itself agrees with the evaluator exactly for finite values other than zero, and for the NaN term itself, which stays NaN |
| EvalTrees.DisagreeAtZero | dynare++/parser/cc/tree.cc:691-698 | a leaf with the value zero: 0^x is built as 0 and evaluates to 1, x/x is built as 1 and evaluates to 0 |
| EvalTrees.EvalTree.ResetAll | dynare++/parser/cc/tree.cc:569-573 | no leaf has a value, and the cache is coherent |
| EvalTrees.StaleCache | dynare++/parser/cc/tree.cc:576-587 | a concrete tree where changing a leaf behind a cached term changes its value: the condition of SetNulary is needed |
| FormulaDerivativesModule.FormulaDerivatives.constructor | dynare++/parser/cc/formula_parser.cc:206-250 | for every non-decreasing multi-index up to the order, what is stored, or zero when nothing is, is the iterated derivative in index order; the tree only grows |
| FormulaDerivativesModule.FormulaDerivatives.Derivative | dynare++/parser/cc/formula_parser.cc:255-269 | fails exactly on too high an order or another number of variables, and otherwise finds the iterated derivative, though zeros are not stored |
| FormulaDerivativesModule.EarlyBreak | dynare++/parser/cc/formula_parser.cc:236-244 | when an order has no derivative other than zero, no higher one has: leaving the loop early loses nothing |
| FormulaDerivativesModule.OrderCompletes | dynare++/parser/cc/formula_parser.cc:217-240 | extending all stored multi-indices of one order by later variables covers all of the next order, though zeros are pruned |
| StoredDerivatives.StoredIsTangent | dynare++/parser/cc/formula_parser.cc:206-250 | a stored derivative has the tangent of the one with an index less as its value, wherever that is defined |
| StoredDerivatives.LastTwoExchange | dynare++/parser/cc/formula_parser.cc:206-250 | exchanging the last two differentiations of a stored derivative leaves its value unchanged wherever the mixed derivative is defined |
| MultiIndices.FoldMultiIndex.Increment | dynare++/parser/cc/formula_parser.cc:390-408 | the carry and the repair of the order give the next multi-index, or run past the end exactly from the last one |
| MultiIndices.SuccessorIsNext | dynare++/parser/cc/formula_parser.cc:390-408 | there is no multi-index between one and its successor in lexicographic order |
| MultiIndices.FoldMultiIndex.LessThan | dynare++/parser/cc/formula_parser.cc:357-375 | the loop decides the order: first by length, then by the first items that differ |
| MultiIndices.StrictTotalOrder | dynare++/parser/cc/formula_parser.cc:357-375 | the comparison is irreflexive, asymmetric, transitive and total, over multi-indices of any orders |
| MultiIndices.FoldMultiIndex.Offset | dynare++/parser/cc/formula_parser.cc:411-419 | the offset is the rank of the multi-index |
| MultiIndices.FoldMultiIndex.OffsetRecurse | dynare++/parser/cc/formula_parser.cc:431-451 | the recursion that shifts its array in place computes the rank |
| MultiIndices.RankOfBumped | dynare++/parser/cc/formula_parser.cc:390-451 | one increment raises the offset by one |
| MultiIndices.RankBounds | dynare++/parser/cc/formula_parser.cc:411-451 | offsets lie below the binomial coefficient |
| MultiIndices.RankInjective | dynare++/parser/cc/formula_parser.cc:411-451 | different multi-indices have different offsets |
| MultiIndices.RankSurjective | dynare++/parser/cc/formula_parser.cc:411-451 | every number below the binomial coefficient is an offset |
| DynamicAtomsModule.DynamicAtoms.AssignVariable | dynare++/parser/cc/dynamic_atoms.cc:165-191 | fails exactly when the index or the atom is taken; otherwise the two maps stay inverse and count, minimal lag and maximal lead stay exact |
| DynamicAtomsModule.DynamicAtoms.UnassignVariable | dynare++/parser/cc/dynamic_atoms.cc:194-230 | fails exactly when the index is not the atom's; otherwise the atom is removed and the bounds stay exact |
| DynamicAtomsModule.DynamicAtoms.UpdateMinMaxLl | dynare++/parser/cc/dynamic_atoms.cc:233-247 | the bounds are the least and the greatest lead of all atoms |
| DynamicAtomsModule.DynamicAtoms.Varspan | dynare++/parser/cc/dynamic_atoms.cc:293-304 | the leads of a list of names are the least and the greatest lead of their atoms |
| DynamicAtomsModule.DynamicAtoms.FindNameWithLeadInInterval | dynare++/parser/cc/atom_substitutions.cc:154-171 | finds a listed name with an atom in the interval, and none only when there is none |
| AtomSubstitutionsModule.AttemptAuxName | dynare++/parser/cc/atom_substitutions.cc:174-189 | the search for a new name ends with the first candidate that is not declared |
| AtomSubstitutionsModule.CandidateShapes | dynare++/parser/cc/atom_substitutions.cc:174-189 | what the tried names look like |
| AtomSubstitutionsModule.AtomSubstitutions.AddSubstitution | dynare++/parser/cc/atom_substitutions.cc:33-49 | the maps from new to old names and back stay inverse |
| AtomSubstitutionsModule.AtomSubstitutions.GetNew4Old | dynare++/parser/cc/atom_substitutions.cc:74-85 | finds the new name of a shifted old name exactly when there is one |
| AtomSubstitutionsModule.MakeAuxVariables | dynare++/parser/cc/atom_substitutions.cc:192-275 | fails exactly on a step other than one or a start beyond the limit; otherwise the model stays the original one with substituted atoms and auxiliary equations, all atoms of the name in the interval are gone, and nothing else changed |
| AtomSubstitutionsModule.MakeAuxVariable | dynare++/parser/cc/atom_substitutions.cc:214-270 | one turn: a new or existing auxiliary name for the lead before, its equation, and the leaf of the atom turned to it; no assignment collides |
| LagElimination.EliminationPreserves | dynare++/parser/cc/atom_substitutions.cc:192-275 | a trajectory solves the new equations exactly when it solves the old ones and every new name is its old name shifted |
| LagElimination.ExtendsUniquely | dynare++/parser/cc/atom_substitutions.cc:192-275 | every solution of the old model extends to a solution of the new one, in only one way |
| LagElimination.LinksForce | dynare++/parser/cc/atom_substitutions.cc:192-275 | the chains of auxiliary equations force each new name to follow its old name |
| SubstituteAllModule.OneEliminated | dynare++/parser/cc/atom_substitutions.cc:192-275 | each call strictly lowers the set of atoms still to be eliminated |
| SubstituteAllModule.EliminatePhase | dynare++/parser/cc/atom_substitutions.cc:129-151 | the search and elimination loop ends, with no atom of the searched kind in the interval and the model faithful to the original |
| SubstituteAllModule.SubstituteAllLagsAndExo1Leads | dynare++/parser/cc/atom_substitutions.cc:129-151 | afterwards endogenous variables lag by at most one, exogenous ones not at all, and they do not lead either when they led by at most one; the model is faithful to the original |
| DynareModels.DynareModel.VariableShift | dynare++/src/dynare_model.cc:225-237 | returns the leaf of the variable at the shifted lead, created when missing; fails exactly on a leaf that is no variable |
| DynareModels.DynareModel.VariableShiftMap | dynare++/src/dynare_model.cc:240-252 | maps exactly the variable leaves of a set to their shifted leaves |
| DynareModels.DynareModel.Termspan | dynare++/src/dynare_model.cc:259-275 | the bounds are the least and the greatest lead of the variables in a term |
| DynareModels.DynareModel.SelectTerms | dynare++/parser/cc/tree.cc:409-431 | the selected terms are exactly those met first on some path down, and every variable of the term lies below one of them |
| DynareModels.DynareModel.FoundByOperation | dynare++/src/dynare_model.cc:623-670 | sums, differences, negations, products with a factor without variables, and powers with zero or one as base or exponent pass on what is found in their operands; any other term with variables is found itself |
| DynareModels.DynareModel.AffineInFound | dynare++/src/dynare_model.cc:623-670 | every term is affine in what is found in it: points that balance every found term balance the term |
| DynareModels.DynareModel.FoundMeets | dynare++/src/dynare_model.cc:289-293 | a selected term is met before any other selected one, and its leaves are leaves of the equation |
| DynareModels.DynareModel.SubstituteAtomForTerm | dynare++/src/dynare_model.cc:296-306 | the term becomes the leaf of an atom, which takes over the tree index; the maps of atoms stay exact |
| ShiftedTerms.ShiftedValue | dynare++/src/dynare_model.cc:225-252 | a term built by shifting all its variables has exactly the value of the term at the shifted time |
| ForwardMeaning.ChainConservative | dynare++/src/forw_subst_builder.cc:75-105 | adding a chain of auxiliary variables and equations determines the new variables and changes nothing else |
| ForwardMeaning.ReplacementConservative | dynare++/src/forw_subst_builder.cc:106-110 | turning the term into the lead of the last auxiliary variable changes no solution |
| ForwardSteps.ChainReplaces | dynare++/src/forw_subst_builder.cc:62-110 | chain and replacement together keep the solutions, and all added equations lead by at most one |
| AuxNames.AuxLeadInjective | dynare++/src/forw_subst_builder.cc:71-104 | different equations, terms or steps give different names of auxiliary variables |
| AuxNames.DecimalReads | dynare++/src/forw_subst_builder.cc:79-94 | reading the digits of a number in a name gives the number |
| AuxNames.NameShapes | dynare++/src/forw_subst_builder.cc:79-94 | what the names of auxiliary variables and multipliers look like |
| ForwSubstBuilders.ForwSubstBuilder.SubstituteForTerm | dynare++/src/forw_subst_builder.cc:62-110 | fails exactly when the name of an auxiliary variable that the term needs is taken; otherwise the solutions on the old names are the same, each extended in one way, and the term then leads by at most one |
| ForwSubstBuilders.ForwSubstBuilder.SubstituteEquation | dynare++/src/forw_subst_builder.cc:38-57 | succeeds when no name of an auxiliary variable was declared at the start; after the loop over its non-linear terms the equation leads by at most one, and so do all equations before it and all added ones |
| ForwSubstBuilders.ForwSubstBuilder.Build | dynare++/src/forw_subst_builder.cc:27-59 | succeeds when no name of an auxiliary variable is declared; over all equations the solutions are kept in both directions and uniquely, every equation old or new and every variable leads by at most one, and the derivative caches are sound |
| ForwSubstBuilders.ForwSubstBuilder.UnassignGt1Leads | dynare++/src/forw_subst_builder.cc:113-133 | the atoms with leads greater than one are no longer used, so removing them changes no solution |
| FinalJobs.EliminateLeadsAndLags | dynare++/src/dynare_model.cc:324-339 | forward substitution followed by lag elimination: succeeds when no auxiliary name is declared; the solutions are those of the model before, each extended in exactly one way to all names; endogenous leads are between -1 and 1, exogenous ones zero |
| FinalJobs.RunPlanner | dynare++/src/dynare_model.cc:311-322 | the planner over all endogenous variables and all equations: succeeds when none of its names is declared; the old equations stay, every added condition has the value of the first-order condition of the plan, which is fixed by the model, its lag and lead bounds, the objective and the discount parameter; the other added equations determine auxiliary variables that stand for lagged derivatives; and the result can be substituted |
| FinalJobs.FinalJob | dynare++/src/dynare_model.cc:308-340 | with a planner: a trajectory on which everything is differentiable solves the final model, with some values of the auxiliary variables, exactly when it solves the parsed equations and all first-order conditions in true tangents, for the given objective and discount parameter. With or without a planner the solutions are those before the elimination, each extended in exactly one way, with lags and leads of at most one; succeeds when no new name is declared |
| PlannedSolutions.PlannedExactly | dynare++/src/dynare_model.cc:311-322 | a trajectory on which everything is differentiable solves the model that the planner leaves, with some values of the auxiliary variables, exactly when it solves the old equations and all first-order conditions |
| PlannedSolutions.FinalExactly | dynare++/src/dynare_model.cc:308-340 | the same for the model after the elimination of leads and lags, and all variables but the old ones and the multipliers are determined |
| PlannerConditions.AuxiliariesExist | dynare++/src/planner_builder.cc:173-184 | when the lagged derivatives of the constraints exist along a trajectory, the auxiliary equations hold for some values of the auxiliary variables, and nothing else changes |
| PlannerBuilders.PlannerBuilder.AddDerivativesOfB | dynare++/src/planner_builder.cc:96-108 | every cell stands for the derivative of the objective by the variable at its lag, zero when it does not occur |
| PlannerBuilders.PlannerBuilder.AddDerivativesOfF | dynare++/src/planner_builder.cc:111-125 | the same for every constraint and every lead |
| PlannerBuilders.PlannerBuilder.ShiftDerivativesOfB | dynare++/src/planner_builder.cc:128-139 | every cell stands for its derivative shifted by the lag |
| PlannerBuilders.PlannerBuilder.ShiftDerivativesOfF | dynare++/src/planner_builder.cc:142-196 | succeeds when the constraints are different and no name of an auxiliary variable is declared; every cell then stands for its shifted derivative, or for the lead of an auxiliary variable when a lagged derivative reads the future |
| PlannerBuilders.PlannerBuilder.ReadsFuture | dynare++/src/planner_builder.cc:162-171 | an auxiliary variable is made exactly for lagged derivatives other than zero with a lead |
| AuxNames.AuxLagInjective | dynare++/src/planner_builder.cc:175-179 | different cells give different names of auxiliary variables |
| PlannerBuilders.PlannerBuilder.BetaMultiplyB | dynare++/src/planner_builder.cc:199-208 | every cell is multiplied by the discount to the power of its lag |
| PlannerBuilders.PlannerBuilder.BetaMultiplyF | dynare++/src/planner_builder.cc:211-230 | every cell is discounted once; the second visit of lead zero multiplies by one |
| PlannerMeaning.DiscountIsPower | dynare++/src/planner_builder.cc:201-230 | the running product is the power for lags, and the running quotient its inverse for leads, defined exactly when the discount factor is not zero |
| PlannerBuilders.PlannerBuilder.LagrangeMultF | dynare++/src/planner_builder.cc:265-286 | fails exactly when a constraint occurs twice or the name of a multiplier is taken; otherwise every cell is multiplied by the shifted multiplier of its constraint |
| PlannerBuilders.PlannerBuilder.FormEquations | dynare++/src/planner_builder.cc:289-309 | adds one equation for each variable and one for each auxiliary variable, the first being the first-order conditions |
| PlannerBuilders.PlannerBuilder.Build | dynare++/src/planner_builder.cc:50-78 | all passes in order; succeeds when the constraints are different and no new name is declared. For every variable, along every trajectory on which the auxiliary equations hold, the built equation has the value of its first-order condition without auxiliary variables |
| PlannerConditions.AuxesDetermined | dynare++/src/planner_builder.cc:173-184 | every trajectory on which the replaced derivatives are defined extends to the auxiliary variables so that their equations hold, and in only one way |
| PlannerConditions.AllFirstOrder | dynare++/src/planner_builder.cc:96-309 | the same from what the passes leave behind |
| PlannerConditions.ConditionIsSum | dynare++/src/planner_builder.cc:96-309 | the first-order condition is the sum over lags of the discounted shifted derivatives of the objective plus the sum over constraints and leads of multiplier, discount and shifted derivative |
| PlannerConditions.FirstOrderInTangents | dynare++/src/planner_builder.cc:96-309 | wherever the tangents exist, the built equation is that sum with the tangents of objective and constraints in place of the built derivatives |
| ObjectiveLeads.LeadsAreMissed | dynare++/src/planner_builder.cc:96-108 | the first-order condition with all lags and leads of the objective is the built one plus the discounted derivatives by the leads |
| ObjectiveLeads.ExactWithoutLeads | dynare++/src/planner_builder.cc:96-108 | when the variable occurs in the objective without leads, the built condition is the full one |
| ObjectiveLeads.ExactWithOneLead | dynare++/src/planner_builder.cc:96-108 | when it occurs with one lead, the built condition is the full one exactly where the derivative by this lead is zero |
| ObjectiveLeads.LeadIsLost | dynare++/src/planner_builder.cc:96-108 | the objective y(+1): the built condition is zero on every trajectory, the full one is one over the discount factor |
| ObjectiveLeads.LeadsMayCancel | dynare++/src/planner_builder.cc:96-108 | the objective b*y(+2)-y(+1) with discount factor b: both leads occur and still the built condition is the full one on every trajectory |
| KOrders.KOrder.PerformStep | dynare++/kord/korder.hh:776-801 | refuses an order that is not the next one; otherwise g then holds every symmetry without u' and with an even number of sigma up to the order and nothing else, G every one with an even number, no insertion repeats, the ledger is exact, and every solved equation adds up F with each sigma sent to its slot or to u', as often as there are choices with an even number of u' that give it |
| KOrders.KOrder.Approximate | dynare++/kord/approximation.cc:86-99 | the run over all orders, from folded first-order containers |
| KOrders.KOrder.RecoverY | dynare++/kord/korder.hh:455-484 | the first derivative of an order is solved and its chain rule completed |
| KOrders.KOrder.RecoverYu | dynare++/kord/korder.hh:489-512 | each pure derivative finds the one by y alone in place, is new, and its chain rule is completed |
| KOrders.KOrder.RecoverYs | dynare++/kord/korder.hh:522-560 | the derivative by y and sigma is solved when its inputs are there, and left out when it is zero |
| KOrders.KOrder.RecoverYus | dynare++/kord/korder.hh:575-612 | the same with u |
| KOrders.KOrder.RecoverS | dynare++/kord/korder.hh:633-670 | the same for sigma alone |
| KOrders.KOrder.FillG | dynare++/kord/korder.hh:675-685 | all derivatives of G by u' that the equation needs are inserted, once each |
| KOrders.CompleteIsDerivative | dynare++/kord/korder.hh:520-727 | the right-hand side of every solved equation, with its binomial factors and the moments of the shock, is the whole derivative by sigma of the expectation of F by the chain rule, when odd moments are zero; it holds nothing else |
| SigmaChoices.CountChoices | dynare++/kord/korder.hh:707-727 | there are as many ways to send m of k sigmas to the shock as the binomial coefficient says |
| SigmaChoices.SigmaBinomial | dynare++/kord/korder.hh:707-727 | the repeated chain rule, which sends each sigma to u' or to its own slot, is the binomial sum of the derivatives with their moments |
| KOrders.LeftOutIsZero | dynare++/kord/korder.hh:520-670 | the equation of a derivative of g that is left out has no term without a zero factor, so zero solves it |
| KOrders.LeftOutOfG | dynare++/kord/korder.hh:672-685 | a derivative of G that is left out has no term without a zero factor |
| KOrders.ReadyNow | dynare++/kord/korder.hh:756-774 | when an equation is solved, no nonzero factor of any term of its right-hand side is missing but for the unknown |
| KOrders.EarlierInSchedule | dynare++/kord/korder.hh:776-801 | the derivative of g that a chain-rule term of full order needs comes earlier in the schedule, unless it is the unknown |
| KOrders.FilledIsReady | dynare++/kord/korder.hh:695-751 | the derivatives of G that the D and E corrections need are present |
| KOrders.ConditionalFirst | dynare++/kord/korder.hh:434-443 | the conditional run of the chain rule misses exactly the terms that need the unknown |
| KOrders.ExactAfterUpdates | dynare++/kord/korder.hh:524-670 | after the later updates every nonzero chain-rule term has been added exactly once, and no zero one |
| KOrders.ExactAfterMultiply | dynare++/kord/korder.hh:457-484 | the same for the first derivative, which is updated tensor by tensor |
| KOrders.ExactWithForwardShock | dynare++/kord/korder.hh:675-685 | derivatives by u' are complete without an update |
| Symmetries.NeedsItself | dynare++/kord/korder.hh:457-670 | which chain-rule terms need the derivative that is being solved for: the one-class term, and the one with as many classes as variables for derivatives by y alone |
| Odometers.Advance | dynare++/integ/cc/product.cc:52-66 | the odometer goes to the next position and carries, or returns to all zeros exactly from the last position |
| ProductQuadratures.ProdPit.Increment | dynare++/integ/cc/product.cc:51-72 | one step goes to the next position with its point and weight, past the end from the last one |
| ProductQuadratures.ProductQuadrature.Begin | dynare++/integ/cc/product.cc:115-122 | the iterator of a portion stands at the first position of its share |
| ProductQuadratures.ProductQuadrature.NumEvals | dynare++/integ/cc/product.hh:118-125 | the number of points is the product of the numbers of points of the coordinates |
| ProductQuadratures.ProductQuadrature.Work | dynare++/integ/cc/quadrature.hh:139-164 | a worker adds exactly the weighted values of its portion |
| ProductQuadratures.ProductQuadrature.Integrate | dynare++/integ/cc/quadrature.hh:177-190 | any number of workers in any order adds up to the sum over the whole grid |
| ProductQuadratures.ProductReproduces | dynare++/integ/cc/product.cc:75-87 | on a function of one coordinate the sum is the one-dimensional rule times the total weight once for each other coordinate |
| ProductQuadratures.ProductOfRules | dynare++/integ/cc/product.cc:75-87 | on a product of functions of one coordinate each the sum is the product of the one-dimensional rules |
| Odometers.ShareBalanced | dynare++/integ/cc/product.cc:115-122 | the shares of the workers have the same length up to one |
| Grids.SetPoint | dynare++/integ/cc/product.cc:76-87 | the point has the coordinates and the weight is the product of the weights of the digits |
| Portions.EachPositionOnce | dynare++/integ/cc/quadrature.hh:139-164 | each position lies in exactly one portion |
| Portions.ParallelIsSequential | dynare++/integ/cc/quadrature.hh:139-190 | the portions added in any order give the sum over all positions |
| SymmetrySets.SymIterator.Increment | dynare++/integ/cc/smolyak.cc:128-144 | one step goes to the next sequence of the set |
| SymmetrySets.AllComplete | dynare++/integ/cc/smolyak.cc:115-121 | every sequence of that length and sum is listed |
| SymmetrySets.AllSound | dynare++/integ/cc/smolyak.cc:115-121 | only sequences of that length and sum are listed, each once |
| SymmetrySets.AllSorted | dynare++/integ/cc/smolyak.cc:115-121 | the sequences are listed in lexicographic order |
| SmolyakQuadratures.SmolyakQuadrature.constructor | dynare++/integ/cc/smolyak.cc:123-147 | levels, numbers of points and cumulated counts are those of all level sequences of the right sums |
| SmolyakQuadratures.SmolyakQuadrature.NumEvals | dynare++/integ/cc/smolyak.cc:152-159 | for every level the number of points is the sum over all summands |
| SmolyakQuadratures.SmolyakQuadrature.CalcNumEvaluations | dynare++/integ/cc/smolyak.cc:184-203 | counting without the stored tables gives the same number |
| SmolyakQuadratures.SmolyakQuadrature.Begin | dynare++/integ/cc/smolyak.cc:165-177 | the scan stops at the summand where the portion starts; the last portion ends past the last summand |
| SmolyakQuadratures.SmolPit.Increment | dynare++/integ/cc/smolyak.cc:51-73 | one step goes to the next position, within the summand or to the next one |
| SmolyakQuadratures.SmolPit.SetPointAndWeight | dynare++/integ/cc/smolyak.cc:79-95 | the weight is the signed binomial coefficient times the weights of the digits |
| SmolyakQuadratures.SmolyakQuadrature.Work | dynare++/integ/cc/quadrature.hh:139-164 | a worker adds exactly the weighted values of its portion |
| SmolyakQuadratures.SmolyakQuadrature.Integrate | dynare++/integ/cc/quadrature.hh:177-190 | any number of workers in any order adds up to the signed sum over all summands |
| SmolyakQuadratures.SmolyakReproduces | dynare++/integ/cc/smolyak.cc:79-147 | on a function of one coordinate the signed sum is the one-dimensional rule of the level times the total weight once for each other coordinate |
| SmolyakQuadratures.SmolyakWeights | dynare++/integ/cc/smolyak.cc:79-147 | all weights sum to the total weight to the power of the dimension |
| Combination.CombinationReproduces | dynare++/integ/cc/smolyak.cc:79-147 | the signed binomial weights over all level sequences reproduce any function of one level |
| RadicalInverses.RadicalInverse.constructor | dynare++/integ/cc/quasi_mcarlo.cc:32-46 | the array holds the digits of the number, with room up to one more than the maximum |
| RadicalInverses.RadicalInverse.HoldsDigits | dynare++/integ/cc/quasi_mcarlo.cc:32-46 | in every valid state each cell is the digit of the number at its place and j is the place of the first one |
| RadicalInverses.RadicalInverse.Increase | dynare++/integ/cc/quasi_mcarlo.cc:81-96 | the carry goes to the next number and never runs over the array |
| RadicalInverses.RadicalInverse.Eval | dynare++/integ/cc/quasi_mcarlo.cc:67-77 | the backward loop computes the reflected number of the permuted digits: the sum over the places of the digits that the scheme uses, each over its power of the base |
| RadicalInverses.PointIsSeries | dynare++/integ/cc/quasi_mcarlo.cc:67-77 | the point is the sum of the used digits over the powers of the base: the digits themselves, the digits that complete them to the base, or those moved by their place |
| RadicalInverses.UsesPermuted | dynare++/integ/cc/quasi_mcarlo.cc:204-214 | a scheme uses exactly that digit |
| RadicalInverses.PermutationScheme.PermuteOnce | dynare++/integ/cc/quasi_mcarlo.cc:204-214 | each permutation of the digits is one to one, with its inverse |
| HaltonSequences.HaltonSequence.constructor | dynare++/integ/cc/quasi_mcarlo.cc:140-149 | every coordinate stands at the number and the point is evaluated |
| HaltonSequences.HaltonSequence.Increase | dynare++/integ/cc/quasi_mcarlo.cc:155-162 | all coordinates go on together; the point is that of the number unless that is past the end |
| Equidistribution.PointInCell | dynare++/integ/cc/quasi_mcarlo.cc:67-77 | a point lies in the cell that its first digits name, and in no other one |
| Equidistribution.EvenExactly | dynare++/integ/cc/quasi_mcarlo.cc:32-96 | b^m consecutive points hit each of b^m cells once exactly when leading zeros are harmless: always for the identity and the reversing scheme, and for Warnock's from b^(m-1) on, or from b^(m-2) on when the last place is not changed |
| VarOrderings.VarOrdering.DoGeneral | dynare++/parser/cc/dynamic_atoms.cc:421-527 | fails exactly when a variable does not occur or leads or lags by more than one; otherwise both orders, all positions and the list of derivatives are those of the block layout, and those read off the atoms (`OrderedIsLaidOut`) |
| VarOrderings.VarOrdering.OrderedIsLaidOut | dynare++/parser/cc/dynamic_atoms.cc:421-527 | the layout read off the atoms: leads, current values and lags are in three ranges (leads first or lags first), each position follows from the lead and the place of the variable, the counts are the numbers of variables with a lead, a lag and both, the variables come in groups and within a group as declared, and the listed derivatives come in the order of their positions |
| DynareJacobians.Layout | dynare++/parser/cc/dynamic_atoms.cc:421-527 | y2outer and outer2y are inverse to each other, and positions are different and below the length |
| VarOrderings.PositionOf | dynare++/parser/cc/dynamic_atoms.cc:421-527 | the position of an atom is the offset of its block plus the rank of its variable, in both orderings |
| DynareJacobians.AtomAt | dynare++/parser/cc/dynamic_atoms.cc:421-527 | only atoms of the variables have positions |
| DynareJacobians.LoadedByVariable | dynare++/src/dynare3.cc:360-374 | the branch on the position finds the place of the variable again, whatever its lead |
| DynareJacobians.DynareJacobian.Load | dynare++/src/dynare3.cc:360-374 | a derivative by an endogenous leaf is added to the column of its variable and nothing else changes; one by an exogenous leaf changes nothing; fails exactly on other leaves |
| IntegDerivsModule.IntegDerivs.constructor | dynare++/kord/korder_stoch.hh:105-151 | holds the integrated derivatives of every dimension from one to the maximum |
| IntegDerivsModule.IntegratesExpectation | dynare++/kord/korder_stoch.hh:40-98 | for every state and scale the polynomial of the integrated derivatives is the expectation of the polynomial of g with shocks scaled by the sum of both scales, except for the constant term, which is not stored |
| IntegDerivsModule.SliceIntegrates | dynare++/kord/korder_stoch.hh:40-98 | the same for one power of the state: the multinomial rearrangement |
| DividedPowers.Binomial | dynare++/kord/korder_stoch.hh:45-66 | the binomial theorem for powers over factorials |

## Left out

- FormulaParser.AddNulary: takes the name and the lead of an atom; reading them from a string, the grammar and the printers are not modelled.
- AddUnary and AddBinary: unary and binary codes are two types, so the exception for an unknown code cannot occur.
- EvalTree.Eval: doubles are an abstract machine that computes the real functions on finite values inside their domain; rounding, the sign of zero, infinities and NaN are left to it.
- EvalTree.constructor: its precondition is what `Create` checks, where the source throws.
- OperationTree.SelectTerms is modelled on `DynareModel`, with its only selector; `select_terms_inv` is not modelled.
- FormulaDerEvaluator and FormulaCustomEvaluator: they only walk the stored derivatives and evaluate them.
- MakeAuxVariables: leads are integers in the range of the source's type; a start whose neighbour would overflow, a start between zero and the step's side, from which two auxiliary variables could come to define each other, and an existing atom that the new one would collide with, where the source throws, are excluded. The drivers never call it so.
- SubstituteAllLagsAndExo1Leads: the sibling `substituteAllLagsAndLeads` and the bookkeeping of `substitutions_finished` are not modelled; they call the same routine.
- ForwSubstBuilder.Build: takes a bound of 2^29 on all leads instead of modelling overflow, and is a method instead of a constructor; copying a builder is not modelled.
- PlannerBuilder.Build: the integer matrices are maps by variable, constraint and lead; the same bound on leads; a method instead of a constructor; `make_static_version` and `MultInitSS::load`, which prepare a numeric starting point, are not modelled.
- PlannerBuilder.Build: returns a failure when a name of an auxiliary variable or a multiplier is taken, where the source throws; the state it leaves then is only said to be valid. The same holds for ForwSubstBuilder.Build.
- FinalJob: the objective and the discount factor are parameters; with a planner all leaves must have atoms, and the bound on the leads is 2^28. The planner takes the variables in their order of declaration, where the source takes the order of a hash set.
- Expectations and random shocks: trajectories are deterministic.
- KOrder: tensors and their values, Sylvester equations and residual checks; solved tensors are given. Switching the storage in the middle of a run is not modelled.
- IntegDerivs: one-dimensional state and shock, real arithmetic, factorials without overflow; `StochForwardDerivs` and the stacks of types are not modelled.
- SmolyakQuadrature.constructor: one-dimensional rules are arbitrary tables with at least one point on each level; `designLevelForEvals` and the precalculated tables are not modelled.
- SmolyakQuadrature.Integrate and ProductQuadrature.Integrate: a worker runs at once in the order in which the workers add to the result under the lock; threads between lock operations touch only their own vectors.
- HaltonSequence: the bases are parameters instead of the table of primes; `qmcpit` and the quadrature classes over it only wrap it.
- RadicalInverse.constructor: the size of the array is an integer count of digits instead of a quotient of logarithms.
- VarOrdering: `do_increasing_time` and the copying constructor are not modelled.
- DynareModel.check_model, parsing of initial values and parameters, model output and MEX code.
- Newton's method, fix points, golden-section searches, the normal-inverse-Wishart updates, simulation and statistics: numeric convergence or plain input and output.
