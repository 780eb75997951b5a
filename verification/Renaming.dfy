/** Renaming leaves one to one: the renamed term has exactly the value of the term at the renamed leaves. */
module Renaming {
  import opened Wrappers
  import opened Jets
  import opened Terms
  import opened OperationTrees
  import opened TreeMeaning

  predicate ProperLeaf(terms: seq<Operation>, t: nat) {
    NUM_CONSTANTS <= t < |terms| && terms[t] == Nulary
  }

  /** Leaves go to leaves, and no two of the given leaves go to the same one. */
  ghost predicate OneToOne(source: seq<Operation>, terms: seq<Operation>, subst: map<nat, nat>, leaves: set<nat>) {
    && (forall k: nat :: k in subst ==> ProperLeaf(source, k) && ProperLeaf(terms, subst[k]))
    && (forall k: nat, l: nat :: k in leaves && l in leaves && Renamed(subst, k) == Renamed(subst, l) ==> k == l)
  }

  function Renamed(subst: map<nat, nat>, k: nat): nat {
    if k in subst then subst[k] else k
  }

  lemma LeavesWithin(source: seq<Operation>, t: nat)
    requires WellFormed(source) && t < |source|
    ensures match source[t]
            case Nulary => true
            case Unary(_, a) => a < t && Leaves(source, a) <= Leaves(source, t)
            case Binary(_, a, b) => a < t && b < t && Leaves(source, a) <= Leaves(source, t) && Leaves(source, b) <= Leaves(source, t)
  {
    assert OperandsBelow(source[t], t);
  }

  /** The two trees: the terms before the renaming and the terms that have been added. */
  ghost predicate Trees(source: seq<Operation>, sourcemap: map<Operation, nat>, terms: seq<Operation>, opmap: map<Operation, nat>) {
    && WellFormed(source) && WellFormed(terms) && source <= terms
    && Consed(source, sourcemap) && Consed(terms, opmap) && Reduced(source)
  }

  /** The image of a leaf is a leaf, and the image of an operation has the same operation on the images of the operands. */
  ghost predicate Mirrors(source: seq<Operation>, terms: seq<Operation>, opmap: map<Operation, nat>, subst: map<nat, nat>, t: nat, r: nat)
    requires WellFormed(source) && t < |source|
  {
    assert OperandsBelow(source[t], t);
    r < |terms| &&
    match source[t]
    case Nulary => terms[r] == Nulary && r == Renamed(subst, t)
    case Unary(c, a) =>
      var ra := Image(source, opmap, subst, a);
      ra.Some? && terms[r] == Unary(c, ra.value)
    case Binary(c, a, b) =>
      var ra, rb := Image(source, opmap, subst, a), Image(source, opmap, subst, b);
      ra.Some? && rb.Some? && terms[r] == Ordered(c, ra.value, rb.value)
  }

  /** Different terms have different images. */
  lemma {:induction false} ImagesDiffer(source: seq<Operation>, sourcemap: map<Operation, nat>, terms: seq<Operation>, opmap: map<Operation, nat>,
                                        subst: map<nat, nat>, leaves: set<nat>, t: nat, u: nat, r: nat)
    requires Trees(source, sourcemap, terms, opmap) && OneToOne(source, terms, subst, leaves)
    requires t < |source| && u < |source| && Leaves(source, t) <= leaves && Leaves(source, u) <= leaves
    requires Image(source, opmap, subst, t) == Some(r) == Image(source, opmap, subst, u)
    ensures t == u
    decreases if t < u then u else t, 1
  {
    ImageMirrors(source, sourcemap, terms, opmap, subst, leaves, t);
    ImageMirrors(source, sourcemap, terms, opmap, subst, leaves, u);
    LeavesWithin(source, t);
    LeavesWithin(source, u);
    hide QuickUnary, QuickBinary, Reduced, Irreducible, Stored, Ordered, Image;
    OrderedShape(source, terms, opmap, subst, t, r);
    OrderedShape(source, terms, opmap, subst, u, r);
    match source[t]
    case Nulary =>
    case Unary(c, a) =>
      var a' := source[u].op1;
      ImagesDiffer(source, sourcemap, terms, opmap, subst, leaves, a, a', Image(source, opmap, subst, a).value);
      assert source[t] == source[u];
    case Binary(c, a, b) =>
      var a', b' := source[u].op1, source[u].op2;
      var ra, rb := Image(source, opmap, subst, a).value, Image(source, opmap, subst, b).value;
      var ra', rb' := Image(source, opmap, subst, a').value, Image(source, opmap, subst, b').value;
      OrderedEqual(c, source[u].bcode, ra, rb, ra', rb');
      if ra == ra' && rb == rb' {
        ImagesDiffer(source, sourcemap, terms, opmap, subst, leaves, a, a', ra);
        ImagesDiffer(source, sourcemap, terms, opmap, subst, leaves, b, b', rb);
      } else {
        ImagesDiffer(source, sourcemap, terms, opmap, subst, leaves, a, b', ra);
        ImagesDiffer(source, sourcemap, terms, opmap, subst, leaves, b, a', rb);
        SourceIrreducible(source, t);
        SourceIrreducible(source, u);
        InOrder(c, a, b);
      }
      assert source[t] == source[u];
  }

  lemma OrderedShape(source: seq<Operation>, terms: seq<Operation>, opmap: map<Operation, nat>, subst: map<nat, nat>, t: nat, r: nat)
    requires WellFormed(source) && t < |source| && Mirrors(source, terms, opmap, subst, t, r)
    ensures source[t].Nulary? <==> terms[r].Nulary?
    ensures source[t].Unary? <==> terms[r].Unary?
    ensures source[t].Binary? <==> terms[r].Binary?
  {
  }

  lemma OrderedEqual(c: BinaryCode, c': BinaryCode, a: nat, b: nat, a': nat, b': nat)
    requires Ordered(c, a, b) == Ordered(c', a', b')
    ensures c == c' && ((a == a' && b == b') || (a == b' && b == a' && (c == PLUS || c == TIMES)))
  {
  }

  lemma InOrder(c: BinaryCode, a: nat, b: nat)
    requires (c == PLUS || c == TIMES) && Irreducible(Binary(c, a, b)) && Irreducible(Binary(c, b, a))
    ensures a == b
  {
  }

  /** Nothing is simplified when a term is renamed. */
  lemma {:induction false} ImageMirrors(source: seq<Operation>, sourcemap: map<Operation, nat>, terms: seq<Operation>, opmap: map<Operation, nat>,
                                        subst: map<nat, nat>, leaves: set<nat>, t: nat)
    requires Trees(source, sourcemap, terms, opmap) && OneToOne(source, terms, subst, leaves)
    requires t < |source| && Leaves(source, t) <= leaves && Image(source, opmap, subst, t).Some?
    ensures Mirrors(source, terms, opmap, subst, t, Image(source, opmap, subst, t).value)
    ensures Image(source, opmap, subst, t).value < NUM_CONSTANTS <==> t < NUM_CONSTANTS
    ensures t < NUM_CONSTANTS ==> Image(source, opmap, subst, t).value == t
    decreases t, 0
  {
    hide QuickUnary, QuickBinary, Reduced, Irreducible, Stored, Ordered;
    LeavesWithin(source, t);
    SourceIrreducible(source, t);
    match source[t]
    case Nulary =>
      assert source[t] == terms[t];
    case Unary(c, a) =>
      ImageMirrors(source, sourcemap, terms, opmap, subst, leaves, a);
      UnaryKept(c, a, Image(source, opmap, subst, a).value);
    case Binary(c, a, b) =>
      ImageMirrors(source, sourcemap, terms, opmap, subst, leaves, a);
      ImageMirrors(source, sourcemap, terms, opmap, subst, leaves, b);
      var ra, rb := Image(source, opmap, subst, a).value, Image(source, opmap, subst, b).value;
      if ra == rb {
        ImagesDiffer(source, sourcemap, terms, opmap, subst, leaves, a, b, ra);
      }
      BinaryKept(c, a, b, ra, rb);
  }

  lemma SourceIrreducible(source: seq<Operation>, t: nat)
    requires Reduced(source) && t < |source|
    ensures Irreducible(source[t])
  {
  }

  lemma UnaryKept(c: UnaryCode, a: nat, ra: nat)
    requires Irreducible(Unary(c, a)) && (ra < NUM_CONSTANTS <==> a < NUM_CONSTANTS) && (a < NUM_CONSTANTS ==> ra == a)
    ensures QuickUnary(c, ra) == None
  {
  }

  lemma BinaryKept(c: BinaryCode, a: nat, b: nat, ra: nat, rb: nat)
    requires Irreducible(Binary(c, a, b)) && (ra == rb ==> a == b)
    requires (ra < NUM_CONSTANTS <==> a < NUM_CONSTANTS) && (a < NUM_CONSTANTS ==> ra == a)
    requires (rb < NUM_CONSTANTS <==> b < NUM_CONSTANTS) && (b < NUM_CONSTANTS ==> rb == b)
    ensures QuickBinary(c, ra, rb) == None && Stored(c, ra, rb) == Ordered(c, ra, rb)
    ensures Ordered(c, ra, rb).Binary?
  {
  }

  /** The renamed term has exactly the value of the term at the renamed leaves. */
  lemma {:induction false} ImageExact(F: Funs, source: seq<Operation>, sourcemap: map<Operation, nat>, terms: seq<Operation>, opmap: map<Operation, nat>,
                                      subst: map<nat, nat>, leaves: set<nat>, p: Point, t: nat)
    requires Trees(source, sourcemap, terms, opmap) && OneToOne(source, terms, subst, leaves)
    requires t < |source| && Leaves(source, t) <= leaves && Image(source, opmap, subst, t).Some?
    ensures var r := Image(source, opmap, subst, t).value;
            r < |terms| && Eval(F, terms, p, r) == Substituted(F, source, terms, p, subst, t)
    decreases t
  {
    ImageMirrors(source, sourcemap, terms, opmap, subst, leaves, t);
    LeavesWithin(source, t);
    var r := Image(source, opmap, subst, t).value;
    match source[t]
    case Nulary =>
    case Unary(c, a) =>
      ImageExact(F, source, sourcemap, terms, opmap, subst, leaves, p, a);
      StoredUnary(F, terms, p, c, Image(source, opmap, subst, a).value, r);
    case Binary(c, a, b) =>
      ImageExact(F, source, sourcemap, terms, opmap, subst, leaves, p, a);
      ImageExact(F, source, sourcemap, terms, opmap, subst, leaves, p, b);
      var ra, rb := Image(source, opmap, subst, a).value, Image(source, opmap, subst, b).value;
      OrderedMeans(F, terms, p, c, ra, rb, r);
  }

  lemma OrderedMeans(F: Funs, terms: seq<Operation>, p: Point, c: BinaryCode, a: nat, b: nat, r: nat)
    requires WellFormed(terms) && r < |terms| && a < |terms| && b < |terms| && terms[r] == Ordered(c, a, b)
    ensures Eval(F, terms, p, r) == JetBinary(F, c, Eval(F, terms, p, a), Eval(F, terms, p, b))
  {
    assert OperandsBelow(terms[r], r);
    if c == PLUS || c == TIMES {
      JetCommutes(F, c, Eval(F, terms, p, a), Eval(F, terms, p, b));
    }
  }

  /** The leaves of the renamed term are the renamed leaves of the term. */
  lemma {:induction false} ImageLeaves(source: seq<Operation>, sourcemap: map<Operation, nat>, terms: seq<Operation>, opmap: map<Operation, nat>,
                                       subst: map<nat, nat>, leaves: set<nat>, t: nat)
    requires Trees(source, sourcemap, terms, opmap) && OneToOne(source, terms, subst, leaves)
    requires t < |source| && Leaves(source, t) <= leaves && Image(source, opmap, subst, t).Some?
    ensures var r := Image(source, opmap, subst, t).value;
            r < |terms| && Leaves(terms, r) == set k: nat | k in Leaves(source, t) :: Renamed(subst, k)
    decreases t
  {
    ImageMirrors(source, sourcemap, terms, opmap, subst, leaves, t);
    LeavesWithin(source, t);
    var r := Image(source, opmap, subst, t).value;
    LeavesWithin(terms, r);
    match source[t]
    case Nulary =>
    case Unary(c, a) =>
      ImageLeaves(source, sourcemap, terms, opmap, subst, leaves, a);
    case Binary(c, a, b) =>
      ImageLeaves(source, sourcemap, terms, opmap, subst, leaves, a);
      ImageLeaves(source, sourcemap, terms, opmap, subst, leaves, b);
  }
}
