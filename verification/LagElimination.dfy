/** Why eliminating lags and leads with auxiliary variables keeps the solutions of a model. */
module LagElimination {
  import opened Wrappers
  import opened Jets
  import opened Terms
  import opened DynamicAtomsModule
  import opened ModelMeaning

  /** The old atom that an atom of the new model stands for: a substituted name is its old name
      shifted in time. */
  function Expand(subst: map<string, Atom>, a: Atom): Atom {
    if a.name in subst then Atom(subst[a.name].name, a.ll + subst[a.name].ll) else a
  }

  function Abs(i: int): nat { if i < 0 then -i else i }

  /** The auxiliary equation of a new name: the leaf of the name at time zero minus the leaf before it. */
  datatype Link = Link(name: string, taux: nat, tprev: nat)

  /** The leaf before does not belong to a name with as large a shift. */
  predicate Ranked(subst: map<string, Atom>, before: string, name: string)
    requires name in subst
  {
    before !in subst || Abs(subst[before].ll) < Abs(subst[name].ll)
  }

  ghost predicate LinkLeaves(m: Model, subst: map<string, Atom>, l: Link) {
    && l.name in subst && l.taux in m.atoms && l.tprev in m.atoms
    && m.atoms[l.taux] == Atom(l.name, 0)
    && Expand(subst, m.atoms[l.tprev]) == subst[l.name]
    && Ranked(subst, m.atoms[l.tprev].name, l.name)
  }

  ghost predicate IsLink(m: Model, subst: map<string, Atom>, l: Link, f: nat) {
    LinkLeaves(m, subst, l) && IsBinary(m.terms, MINUS, l.taux, l.tprev, f)
  }

  /** All new names are fresh and stand for old variables. */
  ghost predicate Fresh(subst: map<string, Atom>, names: set<string>, params: set<string>) {
    forall n: string :: n in subst ==> n !in names && n !in params && subst[n].name in names && subst[n].name !in params
  }

  /** The leaves of the old model still stand for the same old atoms. */
  ghost predicate LeavesKept(before: Model, names: set<string>, after: Model, subst: map<string, Atom>) {
    && (forall t: nat :: t in before.atoms ==> before.atoms[t].name in names)
    && (forall t: nat :: t < |before.terms| ==> (t in after.atoms <==> t in before.atoms))
    && (forall t: nat :: t in before.atoms ==> t in after.atoms && Expand(subst, after.atoms[t]) == before.atoms[t])
  }

  /** The new equations are exactly the auxiliary equations of the new names. */
  ghost predicate Linked(before: Model, after: Model, subst: map<string, Atom>, links: seq<Link>) {
    && |after.formulas| == |before.formulas| + |links|
    && (forall k :: 0 <= k < |links| ==> IsLink(after, subst, links[k], after.formulas[|before.formulas| + k]))
    && (forall n: string :: n in subst ==> exists k :: 0 <= k < |links| && links[k].name == n)
  }

  /** The new model is the old one with substituted atoms and with auxiliary equations. */
  ghost predicate Eliminates(before: Model, names: set<string>, after: Model, subst: map<string, Atom>, links: seq<Link>) {
    && IsModel(before) && IsModel(after)
    && before.terms <= after.terms && before.formulas <= after.formulas
    && before.params == after.params && before.consts == after.consts
    && Fresh(subst, names, before.params)
    && LeavesKept(before, names, after, subst)
    && Linked(before, after, subst, links)
  }

  /** Every new name has the value of its old name at the shifted time. */
  ghost predicate Follows(subst: map<string, Atom>, path: Path) {
    forall n: string, s: int :: n in subst ==> FollowsAt(subst, path, n, s)
  }

  ghost predicate FollowsAt(subst: map<string, Atom>, path: Path, n: string, s: int)
    requires n in subst
  {
    path(n, s) == path(subst[n].name, s + subst[n].ll)
  }

  lemma LeafEval(F: Funs, m: Model, path: Path, s: int, t: nat)
    requires IsModel(m) && t in m.atoms
    ensures t < |m.terms| && Eval(F, m.terms, PointAt(m, path, s), t) == Jet(Some(AtomValue(path, m.params, m.atoms[t], s)), Some(0.0))
  {
    assert IsLeaf(m.terms, t);
  }

  /** The value of an auxiliary equation is the new variable minus what it is linked to. */
  lemma LinkHolds(F: Funs, m: Model, subst: map<string, Atom>, l: Link, f: nat, path: Path, s: int)
    requires Lawful(F) && IsModel(m) && IsLink(m, subst, l, f) && f < |m.terms|
    ensures TermValue(F, m, path, s, f) ==
      Some(AtomValue(path, m.params, Atom(l.name, 0), s) - AtomValue(path, m.params, m.atoms[l.tprev], s))
  {
    var p := PointAt(m, path, s);
    LeafEval(F, m, path, s, l.taux);
    LeafEval(F, m, path, s, l.tprev);
    var e := B(MINUS, Of(l.taux), Of(l.tprev));
    assert Refines(ExprJet(F, m.terms, p, 0, e), Eval(F, m.terms, p, f));
    assert ExprJet(F, m.terms, p, 0, e.e1) == Eval(F, m.terms, p, l.taux);
    assert ExprJet(F, m.terms, p, 0, e.e2) == Eval(F, m.terms, p, l.tprev);
  }

  /** When all new names follow, an atom has the value of the old atom it stands for. */
  lemma ExpandedValue(subst: map<string, Atom>, names: set<string>, params: set<string>, path: Path, a: Atom, s: int)
    requires Fresh(subst, names, params) && Follows(subst, path)
    ensures AtomValue(path, params, a, s) == AtomValue(path, params, Expand(subst, a), s)
  {
    if a.name in subst {
      assert FollowsAt(subst, path, a.name, s + a.ll);
    }
  }

  /** What the auxiliary equation of a new name says about a solution. */
  lemma LinkOf(F: Funs, before: Model, names: set<string>, after: Model, subst: map<string, Atom>,
               links: seq<Link>, path: Path, n: string, s: int) returns (prev: Atom)
    requires Lawful(F) && Eliminates(before, names, after, subst, links) && Solves(F, after, path) && n in subst
    ensures path(n, s) == AtomValue(path, after.params, prev, s)
    ensures Expand(subst, prev) == subst[n] && Ranked(subst, prev.name, n)
  {
    hide LeavesKept, IsLink;
    var k :| 0 <= k < |links| && links[k].name == n;
    var i := |before.formulas| + k;
    assert IsLink(after, subst, links[k], after.formulas[i]);
    assert HoldsAt(F, after, path, i, s);
    LinkHolds(F, after, subst, links[k], after.formulas[i], path, s);
    LinkIsLeaves(after, subst, links[k], after.formulas[i]);
    prev := after.atoms[links[k].tprev];
  }

  lemma LinkIsLeaves(m: Model, subst: map<string, Atom>, l: Link, f: nat)
    requires IsLink(m, subst, l, f)
    ensures LinkLeaves(m, subst, l)
  {
  }

  /** The auxiliary equations force every new name to follow its old name. */
  lemma {:induction false} LinksForce(F: Funs, before: Model, names: set<string>, after: Model, subst: map<string, Atom>,
                                      links: seq<Link>, path: Path, n: string, s: int)
    requires Lawful(F) && Eliminates(before, names, after, subst, links) && Solves(F, after, path) && n in subst
    ensures FollowsAt(subst, path, n, s)
    decreases Abs(subst[n].ll)
  {
    hide LeavesKept, Linked, IsModel;
    var prev := LinkOf(F, before, names, after, subst, links, path, n, s);
    if prev.name in subst {
      LinksForce(F, before, names, after, subst, links, path, prev.name, s + prev.ll);
    }
  }

  /** When all new names follow, the old equations have the same values in both models. */
  lemma OldEquationsKept(F: Funs, before: Model, names: set<string>, after: Model, subst: map<string, Atom>,
                         links: seq<Link>, path: Path, i: nat, s: int)
    requires Eliminates(before, names, after, subst, links) && Follows(subst, path) && i < |before.formulas|
    ensures HoldsAt(F, after, path, i, s) <==> HoldsAt(F, before, path, i, s)
  {
    var f := before.formulas[i];
    assert after.formulas[i] == f;
    var p, q := PointAt(before, path, s), PointAt(after, path, s);
    EvalGrows(F, before.terms, after.terms, q, f);
    LeavesAreLeaves(before.terms, f);
    forall t: nat | t in Leaves(before.terms, f)
      ensures LeafJet(F, p, t) == LeafJet(F, q, t)
    {
      if t in before.atoms {
        ExpandedValue(subst, names, before.params, path, after.atoms[t], s);
      }
    }
    EvalSamePoint(F, before.terms, p, q, f);
  }

  lemma NewEquationHolds(F: Funs, before: Model, names: set<string>, after: Model, subst: map<string, Atom>,
                         links: seq<Link>, path: Path, i: nat, s: int)
    requires Lawful(F) && Eliminates(before, names, after, subst, links) && Follows(subst, path)
    requires |before.formulas| <= i < |after.formulas|
    ensures HoldsAt(F, after, path, i, s)
  {
    hide LeavesKept, IsLink;
    var l := links[i - |before.formulas|];
    assert IsLink(after, subst, l, after.formulas[i]);
    LinkHolds(F, after, subst, l, after.formulas[i], path, s);
    LinkIsLeaves(after, subst, l, after.formulas[i]);
    ExpandedValue(subst, names, before.params, path, after.atoms[l.tprev], s);
    assert FollowsAt(subst, path, l.name, s);
  }

  /** Where all new names follow, both models have the same solutions. */
  lemma FollowersAgree(F: Funs, before: Model, names: set<string>, after: Model, subst: map<string, Atom>,
                       links: seq<Link>, path: Path)
    requires Lawful(F) && Eliminates(before, names, after, subst, links) && Follows(subst, path)
    ensures Solves(F, after, path) <==> Solves(F, before, path)
  {
    hide LeavesKept, IsLink, HoldsAt, Follows;
    forall i: nat, s: int | i < |before.formulas|
      ensures HoldsAt(F, after, path, i, s) <==> HoldsAt(F, before, path, i, s)
    {
      OldEquationsKept(F, before, names, after, subst, links, path, i, s);
    }
    forall i: nat, s: int | |before.formulas| <= i < |after.formulas|
      ensures HoldsAt(F, after, path, i, s)
    {
      NewEquationHolds(F, before, names, after, subst, links, path, i, s);
    }
    if Solves(F, after, path) {
      forall i: nat, s: int | i < |before.formulas|
        ensures HoldsAt(F, before, path, i, s)
      {
        assert HoldsAt(F, after, path, i, s);
      }
    }
  }

  /** Lag elimination preserves meaning: a path solves the new model exactly when it solves the
      old one and every new name is its old name shifted. */
  lemma EliminationPreserves(F: Funs, before: Model, names: set<string>, after: Model, subst: map<string, Atom>,
                             links: seq<Link>, path: Path)
    requires Lawful(F) && Eliminates(before, names, after, subst, links)
    ensures Solves(F, after, path) <==> Solves(F, before, path) && Follows(subst, path)
  {
    hide LeavesKept, Linked, HoldsAt, IsModel;
    if Solves(F, after, path) {
      forall n: string, s: int | n in subst
        ensures FollowsAt(subst, path, n, s)
      {
        LinksForce(F, before, names, after, subst, links, path, n, s);
      }
      assert Follows(subst, path);
    }
    if Follows(subst, path) {
      FollowersAgree(F, before, names, after, subst, links, path);
    }
  }

  /** The extension of a path to the new names. */
  function Extension(subst: map<string, Atom>, path: Path): Path {
    (n: string, s: int) => if n in subst then path(subst[n].name, s + subst[n].ll) else path(n, s)
  }

  ghost predicate AgreeOn(names: set<string>, x: Path, y: Path) {
    forall n: string, s: int :: n in names ==> x(n, s) == y(n, s)
  }

  /** Solving the old model only depends on the old names. */
  lemma SolvesAgrees(F: Funs, m: Model, names: set<string>, x: Path, y: Path)
    requires IsModel(m) && AgreeOn(names, x, y) && Solves(F, m, x)
    requires forall t: nat :: t in m.atoms ==> m.atoms[t].name in names
    ensures Solves(F, m, y)
  {
    forall i: nat, s: int | i < |m.formulas|
      ensures HoldsAt(F, m, y, i, s)
    {
      assert HoldsAt(F, m, x, i, s);
      var p, q := PointAt(m, x, s), PointAt(m, y, s);
      forall t: nat | t in Leaves(m.terms, m.formulas[i])
        ensures LeafJet(F, p, t) == LeafJet(F, q, t)
      {
      }
      EvalSamePoint(F, m.terms, p, q, m.formulas[i]);
    }
  }

  /** Every solution of the old model extends to a solution of the new one, and in only one way. */
  lemma ExtendsUniquely(F: Funs, before: Model, names: set<string>, after: Model, subst: map<string, Atom>,
                        links: seq<Link>, path: Path)
    requires Lawful(F) && Eliminates(before, names, after, subst, links) && Solves(F, before, path)
    ensures AgreeOn(names, path, Extension(subst, path)) && Solves(F, after, Extension(subst, path))
    ensures forall y: Path, n: string, s: int :: AgreeOn(names, path, y) && Solves(F, after, y) && n in names + subst.Keys ==>
      y(n, s) == Extension(subst, path)(n, s)
  {
    var x := Extension(subst, path);
    assert AgreeOn(names, path, x);
    SolvesAgrees(F, before, names, path, x);
    forall n: string, s: int | n in subst
      ensures FollowsAt(subst, x, n, s)
    {
    }
    EliminationPreserves(F, before, names, after, subst, links, x);
    forall y: Path, n: string, s: int | AgreeOn(names, path, y) && Solves(F, after, y) && n in names + subst.Keys
      ensures y(n, s) == x(n, s)
    {
      EliminationPreserves(F, before, names, after, subst, links, y);
      if n in subst { assert FollowsAt(subst, y, n, s); }
    }
  }

  // ----- the steps of the elimination -----

  lemma NothingEliminated(m: Model, names: set<string>)
    requires IsModel(m) && forall t: nat :: t in m.atoms ==> m.atoms[t].name in names
    ensures Eliminates(m, names, m, map[], [])
  {
  }

  /** The atoms of the links have not changed, or still expand to the same. */
  lemma LinkStays(m: Model, m': Model, subst: map<string, Atom>, subst': map<string, Atom>, l: Link, f: nat)
    requires IsLink(m, subst, l, f) && LinkLeaves(m', subst', l)
    requires WellFormed(m'.terms) && m.terms <= m'.terms
    ensures IsLink(m', subst', l, f)
  {
    RepresentsGrows(m.terms, m'.terms, 0, B(MINUS, Of(l.taux), Of(l.tprev)), f);
  }

  /** Adding a leaf for a new atom. */
  lemma LeafAdded(before: Model, names: set<string>, after: Model, subst: map<string, Atom>, links: seq<Link>, a: Atom, after': Model)
    requires Eliminates(before, names, after, subst, links) && IsModel(after')
    requires after' == after.(terms := after.terms + [Nulary], atoms := after.atoms[|after.terms| := a])
    ensures Eliminates(before, names, after', subst, links)
  {
    forall k | 0 <= k < |links|
      ensures IsLink(after', subst, links[k], after'.formulas[|before.formulas| + k])
    {
      assert IsLink(after, subst, links[k], after.formulas[|before.formulas| + k]);
      LinkStays(after, after', subst, subst, links[k], after.formulas[|before.formulas| + k]);
    }
  }

  /** A step of one towards time zero. */
  predicate Towards(ll: int, step: int) {
    (step == 1 && ll >= 1) || (step == -1 && ll <= -1)
  }

  /** Turning the atom of a leaf into the one that replaces it. */
  lemma LeafTurned(before: Model, names: set<string>, after: Model, subst: map<string, Atom>, links: seq<Link>,
                   t: nat, n: string, step: int, after': Model)
    requires Eliminates(before, names, after, subst, links) && t in after.atoms && after.atoms[t].name !in subst
    requires n in subst && subst[n] == Atom(after.atoms[t].name, after.atoms[t].ll - step)
    requires Towards(after.atoms[t].ll, step)
    requires after' == after.(atoms := after.atoms[t := Atom(n, step)])
    ensures Eliminates(before, names, after', subst, links)
  {
    hide IsLink;
    forall k | 0 <= k < |links|
      ensures IsLink(after', subst, links[k], after'.formulas[|before.formulas| + k])
    {
      assert IsLink(after, subst, links[k], after.formulas[|before.formulas| + k]);
      LinkOfTurned(after, subst, t, n, step, after', links[k], after.formulas[|before.formulas| + k]);
    }
  }

  lemma LinkOfTurned(after: Model, subst: map<string, Atom>, t: nat, n: string, step: int, after': Model, l: Link, f: nat)
    requires IsModel(after) && t in after.atoms && after.atoms[t].name !in subst
    requires n in subst && subst[n] == Atom(after.atoms[t].name, after.atoms[t].ll - step)
    requires Towards(after.atoms[t].ll, step)
    requires after' == after.(atoms := after.atoms[t := Atom(n, step)])
    requires IsLink(after, subst, l, f)
    ensures IsLink(after', subst, l, f)
  {
    hide IsBinary;
    assert LinkLeaves(after', subst, l);
    LinkStays(after, after', subst, subst, l, f);
  }

  lemma LinkOfMore(after: Model, subst: map<string, Atom>, after': Model, name: string, target: Atom, l: Link, f: nat)
    requires IsModel(after) && IsModel(after') && IsLink(after, subst, l, f)
    requires name !in subst && after.atoms[l.tprev].name != name
    requires after.terms <= after'.terms && after'.atoms == after.atoms
    ensures IsLink(after', subst[name := target], l, f)
  {
    hide IsBinary;
    assert LinkLeaves(after', subst[name := target], l);
    LinkStays(after, after', subst, subst[name := target], l, f);
  }

  /** Adding a new name with its auxiliary equation. */
  lemma LinkAdded(before: Model, names: set<string>, after: Model, subst: map<string, Atom>, links: seq<Link>,
                  l: Link, target: Atom, f: nat, after': Model)
    requires Eliminates(before, names, after, subst, links) && IsModel(after')
    requires l.name !in subst && l.name !in names && l.name !in before.params
    requires target.name in names && target.name !in before.params
    requires forall k :: 0 <= k < |links| ==> links[k].tprev in after.atoms && after.atoms[links[k].tprev].name != l.name
    requires after.terms <= after'.terms && after'.formulas == after.formulas + [f]
    requires before.terms <= after'.terms && before.formulas <= after'.formulas
    requires after'.atoms == after.atoms && after'.consts == after.consts && after'.params == after.params
    requires IsLink(after', subst[l.name := target], l, f)
    ensures Eliminates(before, names, after', subst[l.name := target], links + [l])
  {
    hide Linked, IsLink, IsModel, LeavesKept, Represents;
    AllLinked(before, after, subst, links, l, target, f, after');
    LeavesStayKept(before, names, after, subst, l.name, target, after');
  }

  lemma LeavesStayKept(before: Model, names: set<string>, after: Model, subst: map<string, Atom>, name: string, target: Atom, after': Model)
    requires LeavesKept(before, names, after, subst) && name !in subst && name !in names && after'.atoms == after.atoms
    ensures LeavesKept(before, names, after', subst[name := target])
  {
  }

  lemma AllLinked(before: Model, after: Model, subst: map<string, Atom>, links: seq<Link>,
                  l: Link, target: Atom, f: nat, after': Model)
    requires Linked(before, after, subst, links) && IsModel(after) && IsModel(after') && l.name !in subst
    requires forall k :: 0 <= k < |links| ==> links[k].tprev in after.atoms && after.atoms[links[k].tprev].name != l.name
    requires after.terms <= after'.terms && after'.formulas == after.formulas + [f] && after'.atoms == after.atoms
    requires IsLink(after', subst[l.name := target], l, f)
    ensures Linked(before, after', subst[l.name := target], links + [l])
  {
    hide IsLink, IsModel, WellFormed;
    var subst' := subst[l.name := target];
    forall k | 0 <= k < |links| + 1
      ensures IsLink(after', subst', (links + [l])[k], after'.formulas[|before.formulas| + k])
    {
      if k < |links| {
        var g := after.formulas[|before.formulas| + k];
        assert after'.formulas[|before.formulas| + k] == g;
        assert IsLink(after, subst, links[k], g);
        LinkOfMore(after, subst, after', l.name, target, links[k], g);
      }
    }
    forall n: string | n in subst'
      ensures exists k :: 0 <= k < |links + [l]| && (links + [l])[k].name == n
    {
      if n == l.name {
        assert (links + [l])[|links|].name == n;
      } else {
        var k :| 0 <= k < |links| && links[k].name == n;
        assert (links + [l])[k].name == n;
      }
    }
  }

  /** A model with a leaf for a new atom. */
  function WithLeaf(m: Model, a: Atom): Model {
    m.(terms := m.terms + [Nulary], atoms := m.atoms[|m.terms| := a])
  }

  /** No atom of the model has this name. */
  ghost predicate Unused(m: Model, name: string) {
    forall t: nat :: t in m.atoms ==> m.atoms[t].name != name
  }

  /** The leaf stands for the target, and not through a name with as large a shift. */
  ghost predicate StandsFor(m: Model, subst: map<string, Atom>, t: nat, target: Atom) {
    && t in m.atoms && Expand(subst, m.atoms[t]) == target
    && (m.atoms[t].name in subst ==> Abs(subst[m.atoms[t].name].ll) < Abs(target.ll))
  }

  /** Creating a new name: its leaf at time zero and its auxiliary equation. */
  lemma NameCreated(before: Model, names: set<string>, m0: Model, subst: map<string, Atom>, links: seq<Link>,
                    newname: string, target: Atom, tprev: nat, m2: Model, f: nat)
    requires Eliminates(before, names, m0, subst, links) && Unused(m0, newname)
    requires newname !in subst && newname !in names && newname !in before.params
    requires target.name in names && target.name !in before.params && StandsFor(m0, subst, tprev, target)
    requires IsModel(WithLeaf(m0, Atom(newname, 0))) && IsModel(m2)
    requires m2 == WithLeaf(m0, Atom(newname, 0)).(terms := m2.terms, formulas := m0.formulas + [f])
    requires m0.terms + [Nulary] <= m2.terms && IsBinary(m2.terms, MINUS, |m0.terms|, tprev, f)
    ensures Eliminates(before, names, m2, subst[newname := target], links + [Link(newname, |m0.terms|, tprev)])
  {
    hide IsBinary, IsLink, WellFormed, LeavesKept, Linked;
    var m1 := WithLeaf(m0, Atom(newname, 0));
    var l := Link(newname, |m0.terms|, tprev);
    LeafAdded(before, names, m0, subst, links, Atom(newname, 0), m1);
    NewLink(m0, subst, newname, target, tprev, m2, f);
    LinksAvoid(before, names, m0, subst, links, newname, m1);
    LinkAdded(before, names, m1, subst, links, l, target, f, m2);
  }

  lemma NewLink(m0: Model, subst: map<string, Atom>, newname: string, target: Atom, tprev: nat, m2: Model, f: nat)
    requires IsModel(m0) && Unused(m0, newname) && newname !in subst && StandsFor(m0, subst, tprev, target)
    requires m2.atoms == m0.atoms[|m0.terms| := Atom(newname, 0)]
    requires IsBinary(m2.terms, MINUS, |m0.terms|, tprev, f)
    ensures IsLink(m2, subst[newname := target], Link(newname, |m0.terms|, tprev), f)
  {
    hide IsBinary;
    assert IsLeaf(m0.terms, tprev);
  }

  lemma LinksAvoid(before: Model, names: set<string>, m0: Model, subst: map<string, Atom>, links: seq<Link>, newname: string, m1: Model)
    requires Eliminates(before, names, m0, subst, links) && Unused(m0, newname) && m1 == WithLeaf(m0, Atom(newname, 0))
    ensures forall k :: 0 <= k < |links| ==> links[k].tprev in m1.atoms && m1.atoms[links[k].tprev].name != newname
  {
    hide IsBinary;
    forall k | 0 <= k < |links|
      ensures links[k].tprev in m1.atoms && m1.atoms[links[k].tprev].name != newname
    {
      assert IsLink(m0, subst, links[k], m0.formulas[|before.formulas| + k]);
      assert IsLeaf(m0.terms, links[k].tprev);
    }
  }
}
