/** What the stored partial derivatives of a formula are worth. */
module StoredDerivatives {
  import opened Jets
  import opened Terms
  import opened DerivativeRules
  import opened OperationTrees
  import opened MixedDerivatives
  import opened FormulaDerivativesModule

  /** The parts of a tree with a sound incidence and a sound cache. */
  ghost predicate Sound(s: Snapshot) {
    && WellFormed(s.terms) && Incident(s.terms, s.nul) && CacheSound(s.terms, s.ders)
  }

  /** What the tree holds ready is a derivative: the shortcuts for leaves and absent variables, and the cache. */
  lemma KnownRepresents(s: Snapshot, t: nat, v: nat)
    requires Sound(s) && KnownIn(s, t, v).Some?
    ensures t < |s.terms| && Represents(s.terms, v, By(t), KnownIn(s, t, v).value)
  {
    if s.terms[t] == Nulary {
      LeafDerivative(s.terms, t, v);
    } else if v !in s.nul[t] {
      ZeroIsDerivative(s.terms, v, t);
    }
  }

  lemma LeafDerivative(terms: seq<Operation>, t: nat, v: nat)
    requires WellFormed(terms) && t < |terms| && terms[t] == Nulary
    ensures Represents(terms, v, By(t), if t == v then ONE else ZERO)
  {
  }

  /** The iterated derivative one differentiation earlier. */
  lemma IteratedStep(s: Snapshot, f: nat, vars: seq<nat>, prefix: seq<nat>, i: nat)
    requires Sound(s) && i < |vars| && (forall k :: 0 <= k < |prefix| ==> prefix[k] < |vars|)
    requires Iterated(s, f, vars, prefix + [i]).Some?
    ensures Iterated(s, f, vars, prefix).Some? && Iterated(s, f, vars, prefix).value < |s.terms|
    ensures Represents(s.terms, vars[i], By(Iterated(s, f, vars, prefix).value), Iterated(s, f, vars, prefix + [i]).value)
  {
    hide Represents, KnownIn, Sound;
    assert (prefix + [i])[..|prefix|] == prefix;
    KnownRepresents(s, Iterated(s, f, vars, prefix).value, vars[i]);
  }

  /** A stored derivative has the tangent of the derivative with one index less as its value, wherever that is defined. */
  lemma StoredIsTangent(F: Funs, s: Snapshot, f: nat, vars: seq<nat>, prefix: seq<nat>, i: nat, p: Point, val: map<nat, real>)
    requires Lawful(F) && Sound(s) && i < |vars| && (forall k :: 0 <= k < |prefix| ==> prefix[k] < |vars|)
    requires Iterated(s, f, vars, prefix + [i]).Some? && vars[i] >= NUM_CONSTANTS && HasValues(p, val)
    ensures Iterated(s, f, vars, prefix).Some? && Iterated(s, f, vars, prefix).value < |s.terms|
    ensures var t, r := Iterated(s, f, vars, prefix).value, Iterated(s, f, vars, prefix + [i]).value;
      Eval(F, s.terms, At(val, vars[i]), t).d.Some? ==> r < |s.terms| && Eval(F, s.terms, p, r).x == Eval(F, s.terms, At(val, vars[i]), t).d
  {
    IteratedStep(s, f, vars, prefix, i);
    var t, r := Iterated(s, f, vars, prefix).value, Iterated(s, f, vars, prefix + [i]).value;
    if Eval(F, s.terms, At(val, vars[i]), t).d.Some? {
      BuiltDerivativeIsTangent(F, s.terms, p, val, vars[i], t, r);
    }
  }

  /** Exchanging the last two differentiations of a stored derivative gives a term of the same value, wherever the mixed
      derivative is defined: dk and dki are the derivatives in the other order. */
  lemma LastTwoExchange(F: Funs, s: Snapshot, f: nat, vars: seq<nat>, prefix: seq<nat>, i: nat, k: nat, p: Point, val: map<nat, real>,
                        dk: nat, dki: nat)
    requires Lawful(F) && Sound(s) && i < |vars| && k < |vars| && (forall j :: 0 <= j < |prefix| ==> prefix[j] < |vars|)
    requires Iterated(s, f, vars, prefix + [i, k]).Some? && vars[i] >= NUM_CONSTANTS && vars[k] >= NUM_CONSTANTS && HasValues(p, val)
    requires Iterated(s, f, vars, prefix).Some? ==> Represents(s.terms, vars[k], By(Iterated(s, f, vars, prefix).value), dk)
    requires Represents(s.terms, vars[i], By(dk), dki)
    ensures Iterated(s, f, vars, prefix).Some? && Iterated(s, f, vars, prefix).value < |s.terms|
    ensures Deriv(F, s.terms, At(val, vars[k]), vars[i], Iterated(s, f, vars, prefix).value).d.Some? ==>
      Iterated(s, f, vars, prefix + [i, k]).value < |s.terms| && dki < |s.terms| &&
      Eval(F, s.terms, p, Iterated(s, f, vars, prefix + [i, k]).value).x == Eval(F, s.terms, p, dki).x
  {
    hide Represents, CacheSound, Incident;
    var once := prefix + [i];
    assert prefix + [i, k] == once + [k];
    IteratedStep(s, f, vars, once, k);
    IteratedStep(s, f, vars, prefix, i);
    var t, di, dik := Iterated(s, f, vars, prefix).value, Iterated(s, f, vars, once).value, Iterated(s, f, vars, once + [k]).value;
    if Deriv(F, s.terms, At(val, vars[k]), vars[i], t).d.Some? {
      Inside2(s, vars[k], di, dik, vars[i], dk, dki);
      MixedPartialsAgree(F, s.terms, p, val, vars[i], vars[k], t, di, dk, dik, dki);
    }
  }

  lemma Inside2(s: Snapshot, u: nat, di: nat, dik: nat, v: nat, dk: nat, dki: nat)
    requires Represents(s.terms, u, By(di), dik) && Represents(s.terms, v, By(dk), dki)
    ensures dik < |s.terms| && dki < |s.terms|
  {
  }
}
