/** Named atoms with leads and lags, and the tree indices they are assigned to. */
module DynamicAtomsModule {
  import opened Wrappers

  /** The variable name at lead ll, a lag when negative. */
  datatype Atom = Atom(name: string, ll: int)

  // The range of leads, and the values that stand for no lead at all.
  const INT_MIN: int := -0x8000_0000
  const INT_MAX: int := 0x7fff_ffff

  predicate InRange(ll: int) { INT_MIN <= ll <= INT_MAX }

  function Min(a: int, b: int): int { if a <= b then a else b }
  function Max(a: int, b: int): int { if a >= b then a else b }

  /** lo and hi are the least and the greatest lead, or the extreme values when there is none. */
  ghost predicate Spans(atoms: set<Atom>, lo: int, hi: int) {
    && (forall a: Atom :: a in atoms ==> lo <= a.ll <= hi)
    && (atoms == {} ==> lo == INT_MAX && hi == INT_MIN)
    && (atoms != {} ==> (exists a: Atom :: a in atoms && a.ll == lo) && (exists a: Atom :: a in atoms && a.ll == hi))
  }

  lemma SpansNone()
    ensures Spans({}, INT_MAX, INT_MIN)
  {
  }

  lemma SpansMore(atoms: set<Atom>, lo: int, hi: int, a: Atom)
    requires Spans(atoms, lo, hi) && InRange(a.ll) && forall x: Atom :: x in atoms ==> InRange(x.ll)
    ensures Spans(atoms + {a}, Min(a.ll, lo), Max(a.ll, hi))
  {
    if atoms != {} {
      var x: Atom :| x in atoms && x.ll == lo;
      var y: Atom :| y in atoms && y.ll == hi;
      assert x in atoms + {a} && y in atoms + {a} && a in atoms + {a};
    } else {
      assert a in atoms + {a};
    }
  }

  lemma SpansFewer(atoms: set<Atom>, lo: int, hi: int, a: Atom)
    requires Spans(atoms, lo, hi) && a in atoms && a.ll != lo && a.ll != hi
    ensures Spans(atoms - {a}, lo, hi)
  {
    var x: Atom :| x in atoms && x.ll == lo;
    var y: Atom :| y in atoms && y.ll == hi;
    assert x in atoms - {a} && y in atoms - {a};
  }

  /** Takes the least and the greatest lead of a set of atoms. */
  method SpanOf(atoms: set<Atom>) returns (lo: int, hi: int)
    requires forall a: Atom :: a in atoms ==> InRange(a.ll)
    ensures Spans(atoms, lo, hi)
  {
    lo, hi := INT_MAX, INT_MIN;
    var rest := atoms;
    ghost var done: set<Atom> := {};
    while rest != {}
      invariant done + rest == atoms
      invariant Spans(done, lo, hi)
      decreases |rest|
    {
      var a: Atom :| a in rest;
      SpansMore(done, lo, hi, a);
      lo, hi := Min(a.ll, lo), Max(a.ll, hi);
      rest, done := rest - {a}, done + {a};
    }
    assert done == atoms;
  }

  /** The two maps are inverse to each other. */
  ghost predicate Matched(vars: map<Atom, nat>, indices: map<nat, Atom>) {
    && (forall a: Atom :: a in vars ==> vars[a] in indices && indices[vars[a]] == a)
    && (forall t: nat :: t in indices ==> indices[t] in vars && vars[indices[t]] == t)
  }

  lemma MatchedMore(vars: map<Atom, nat>, indices: map<nat, Atom>, a: Atom, t: nat)
    requires Matched(vars, indices) && a !in vars && t !in indices
    ensures Matched(vars[a := t], indices[t := a]) && |vars[a := t]| == |vars| + 1
    ensures vars[a := t].Keys == vars.Keys + {a}
  {
  }

  lemma MatchedFewer(vars: map<Atom, nat>, indices: map<nat, Atom>, a: Atom)
    requires Matched(vars, indices) && a in vars
    ensures Matched(vars - {a}, indices - {vars[a]}) && |vars - {a}| == |vars| - 1
    ensures (vars - {a}).Keys == vars.Keys - {a}
  {
    OneFewer(vars, a);
  }

  /** The declared names and the atoms at some point. */
  datatype AtomsState = AtomsState(varnames: set<string>, params: seq<string>, endovars: seq<string>, exovars: seq<string>,
                                   vars: map<Atom, nat>, indices: map<nat, Atom>)

  /** The parameters, the endogenous and the exogenous variables, and their atoms. */
  class DynamicAtoms {
    var varnames: set<string>
    var params: seq<string>
    var endovars: seq<string>
    var exovars: seq<string>
    var vars: map<Atom, nat>
    /** Which atom a tree index belongs to; the source keeps the name and searches for the lead. */
    var indices: map<nat, Atom>
    var nv: nat
    var minlag: int
    var maxlead: int
    var consts: map<nat, real>

    ghost predicate Valid()
      reads this
    {
      && Matched(vars, indices)
      && (forall a: Atom :: a in vars ==> InRange(a.ll))
      && nv == |vars|
      && Spans(vars.Keys, minlag, maxlead)
    }

    /** Declared names are unique, and atoms belong to declared names. */
    ghost predicate Declared()
      reads this
    {
      && (forall n: string :: n in params || n in endovars || n in exovars ==> n in varnames)
      && (forall n: string :: n in params ==> n !in endovars && n !in exovars)
      && (forall n: string :: n in endovars ==> n !in exovars)
      && (forall a: Atom :: a in vars ==> a.name in varnames)
    }

    ghost function State(): AtomsState
      reads this
    {
      AtomsState(varnames, params, endovars, exovars, vars, indices)
    }

    constructor ()
      ensures Valid() && Declared() && vars == map[] && consts == map[] && varnames == {}
    {
      varnames, params, endovars, exovars := {}, [], [], [];
      vars, indices, nv := map[], map[], 0;
      minlag, maxlead := INT_MAX, INT_MIN;
      consts := map[];
    }

    /** Declares a new endogenous variable; fails exactly when the name is taken. */
    method RegisterUniqEndo(name: string) returns (ok: bool)
      requires Valid() && Declared()
      modifies this`varnames, this`endovars
      ensures Valid() && Declared() && ok == (name !in old(varnames))
      ensures varnames == if ok then old(varnames) + {name} else old(varnames)
      ensures endovars == if ok then old(endovars) + [name] else old(endovars)
    {
      if name in varnames {
        return false;
      }
      varnames := varnames + {name};
      endovars := endovars + [name];
      return true;
    }

    function Index(a: Atom): Option<nat>
      reads this
    {
      if a in vars then Some(vars[a]) else None
    }

    predicate IsNamedAtom(t: nat)
      reads this
    {
      t in indices
    }

    /** Gives the atom a tree index; fails exactly when either is already assigned. */
    method AssignVariable(a: Atom, t: nat) returns (ok: bool)
      requires Valid() && InRange(a.ll)
      modifies this`vars, this`indices, this`nv, this`minlag, this`maxlead
      ensures Valid() && ok == (t !in old(indices) && a !in old(vars))
      ensures vars == if ok then old(vars)[a := t] else old(vars)
      ensures indices == if ok then old(indices)[t := a] else old(indices)
    {
      if t in indices || a in vars {
        return false;
      }
      hide Spans, Matched;
      SpansMore(vars.Keys, minlag, maxlead, a);
      MatchedMore(vars, indices, a, t);
      vars := vars[a := t];
      indices := indices[t := a];
      nv := nv + 1;
      minlag := Min(a.ll, minlag);
      maxlead := Max(a.ll, maxlead);
      return true;
    }

    /** Takes the tree index from the atom; fails exactly when it is not the atom's. */
    method UnassignVariable(a: Atom, t: nat) returns (ok: bool)
      requires Valid()
      modifies this`vars, this`indices, this`nv, this`minlag, this`maxlead
      ensures Valid() && ok == (a in old(vars) && old(vars)[a] == t)
      ensures vars == if ok then old(vars) - {a} else old(vars)
      ensures indices == if ok then old(indices) - {t} else old(indices)
    {
      hide Spans, Matched;
      if a !in vars || vars[a] != t {
        return false;
      }
      if a.ll != minlag && a.ll != maxlead {
        SpansFewer(vars.Keys, minlag, maxlead, a);
      }
      MatchedFewer(vars, indices, a);
      vars := vars - {a};
      indices := indices - {t};
      nv := nv - 1;
      if a.ll == minlag || a.ll == maxlead {
        UpdateMinMaxLl();
      }
      return true;
    }

    method UpdateMinMaxLl()
      requires forall a: Atom :: a in vars ==> InRange(a.ll)
      modifies this`minlag, this`maxlead
      ensures Spans(vars.Keys, minlag, maxlead)
    {
      minlag, maxlead := SpanOf(vars.Keys);
    }

    ghost function AtomsOf(names: set<string>): set<Atom>
      reads this
    {
      set a: Atom | a in vars && a.name in names
    }

    /** The leads of a name. */
    method VarspanOfName(name: string) returns (mlead: int, mlag: int)
      requires Valid()
      ensures Spans(AtomsOf({name}), mlag, mlead)
    {
      mlag, mlead := SpanOf(set a: Atom | a in vars && a.name == name);
      assert (set a: Atom | a in vars && a.name == name) == AtomsOf({name});
    }

    /** The leads of a list of names. */
    method Varspan(names: seq<string>) returns (mlead: int, mlag: int)
      requires Valid()
      ensures Spans(AtomsOf(set n: string | n in names), mlag, mlead)
    {
      hide Spans;
      mlead, mlag := INT_MIN, INT_MAX;
      SpansNone();
      ghost var done: set<string> := {};
      assert AtomsOf({}) == {};
      for i := 0 to |names|
        invariant done == set n: string | n in names[..i]
        invariant Spans(AtomsOf(done), mlag, mlead)
      {
        var lead, lag := VarspanOfName(names[i]);
        SpansUnion(AtomsOf(done), AtomsOf({names[i]}), mlag, mlead, lag, lead);
        assert AtomsOf(done + {names[i]}) == AtomsOf(done) + AtomsOf({names[i]});
        mlead, mlag := Max(lead, mlead), Min(lag, mlag);
        done := done + {names[i]};
        assert names[..i + 1] == names[..i] + [names[i]];
      }
      assert names[..|names|] == names;
    }

    /** The first name with an atom between the leads. */
    method FindNameWithLeadInInterval(names: seq<string>, ll1: int, ll2: int) returns (found: Option<string>)
      requires Valid()
      ensures found.Some? ==> found.value in names && HasLeadIn(found.value, ll1, ll2)
      ensures found == None ==> forall n: string :: n in names ==> !HasLeadIn(n, ll1, ll2)
    {
      for i := 0 to |names|
        invariant forall k :: 0 <= k < i ==> !HasLeadIn(names[k], ll1, ll2)
      {
        if HasLeadIn(names[i], ll1, ll2) {
          return Some(names[i]);
        }
      }
      return None;
    }

    predicate HasLeadIn(name: string, ll1: int, ll2: int)
      reads this
    {
      exists a: Atom :: a in vars && a.name == name && ll1 <= a.ll <= ll2
    }
  }

  lemma SpansUnion(a: set<Atom>, b: set<Atom>, lo: int, hi: int, lo': int, hi': int)
    requires Spans(a, lo, hi) && Spans(b, lo', hi')
    requires forall x: Atom :: x in a + b ==> InRange(x.ll)
    ensures Spans(a + b, Min(lo', lo), Max(hi', hi))
  {
    if a != {} {
      var x: Atom :| x in a && x.ll == lo;
      var y: Atom :| y in a && y.ll == hi;
      assert x in a + b && y in a + b;
    }
    if b != {} {
      var x: Atom :| x in b && x.ll == lo';
      var y: Atom :| y in b && y.ll == hi';
      assert x in a + b && y in a + b;
    }
  }

  lemma OneFewer(vars: map<Atom, nat>, a: Atom)
    requires a in vars
    ensures |vars - {a}| == |vars| - 1
  {
    assert (vars - {a}).Keys == vars.Keys - {a};
    assert |(vars - {a}).Keys| == |vars - {a}| && |vars.Keys| == |vars|;
  }
}
