/** The order in which the atoms of all variables are laid out, and the order of the variables. */
module VarOrderings {
  import opened Wrappers
  import opened DynamicAtomsModule

  /** Static variables, predetermined ones, those that lag and lead, and forward looking ones. */
  datatype Kind = Stat | Pred | Both | Forw

  datatype OrdType = PBSPBFBF | BFSPBFPB

  /** One kind of variables at one lead. */
  datatype Block = Block(kind: Kind, ll: int)

  /** The kind of a variable with these leads; none when the leads are not allowed. */
  function KindOf(lag: int, lead: int): Option<Kind> {
    if lag == 0 && lead == 0 then Some(Stat)
    else if lag == -1 && lead < 1 then Some(Pred)
    else if lag > -1 && lead == 1 then Some(Forw)
    else if lag == -1 && lead == 1 then Some(Both)
    else None
  }

  /** The variables of a kind, in the order of the declaration. */
  function OfKind(kinds: seq<Kind>, k: Kind): (vs: seq<nat>)
    ensures forall r :: 0 <= r < |vs| ==> vs[r] < |kinds| && kinds[vs[r]] == k
    ensures forall r, q :: 0 <= r < q < |vs| ==> vs[r] < vs[q]
    ensures |vs| <= |kinds|
  {
    if |kinds| == 0 then []
    else
      var n := |kinds| - 1;
      OfKind(kinds[..n], k) + (if kinds[n] == k then [n] else [])
  }

  /** The place of a variable among those of its kind. */
  function Rank(kinds: seq<Kind>, v: nat): nat
    requires v < |kinds|
  {
    |OfKind(kinds[..v], kinds[v])|
  }

  lemma {:induction false} RankOf(kinds: seq<Kind>, v: nat)
    requires v < |kinds|
    ensures Rank(kinds, v) < |OfKind(kinds, kinds[v])| && OfKind(kinds, kinds[v])[Rank(kinds, v)] == v
    decreases |kinds|
  {
    var n := |kinds| - 1;
    if v < n {
      RankOf(kinds[..n], v);
      assert kinds[..n][..v] == kinds[..v];
    }
  }

  lemma RankUnique(kinds: seq<Kind>, k: Kind, r: nat)
    requires r < |OfKind(kinds, k)|
    ensures Rank(kinds, OfKind(kinds, k)[r]) == r
  {
    var v := OfKind(kinds, k)[r];
    RankOf(kinds, v);
  }

  // ----- the order of the variables -----

  /** All variables: static, predetermined, both, forward looking. */
  function Order(kinds: seq<Kind>): seq<nat> {
    OfKind(kinds, Stat) + OfKind(kinds, Pred) + OfKind(kinds, Both) + OfKind(kinds, Forw)
  }

  /** Where the variables of a kind start in this order. */
  function Start(kinds: seq<Kind>, k: Kind): nat {
    match k
    case Stat => 0
    case Pred => |OfKind(kinds, Stat)|
    case Both => |OfKind(kinds, Stat)| + |OfKind(kinds, Pred)|
    case Forw => |OfKind(kinds, Stat)| + |OfKind(kinds, Pred)| + |OfKind(kinds, Both)|
  }

  /** The place of a variable in the order. */
  function PlaceOf(kinds: seq<Kind>, v: nat): nat
    requires v < |kinds|
  {
    Start(kinds, kinds[v]) + Rank(kinds, v)
  }

  lemma {:induction false} OrderCounts(kinds: seq<Kind>)
    ensures |Order(kinds)| == |kinds|
    decreases |kinds|
  {
    if |kinds| > 0 { OrderCounts(kinds[..|kinds| - 1]); }
  }

  /** The order lists every variable once, at its place. */
  lemma OrderPlaces(kinds: seq<Kind>)
    ensures |Order(kinds)| == |kinds|
    ensures forall v: nat :: v < |kinds| ==> PlaceOf(kinds, v) < |kinds| && Order(kinds)[PlaceOf(kinds, v)] == v
    ensures forall p: nat :: p < |kinds| ==> Order(kinds)[p] < |kinds| && PlaceOf(kinds, Order(kinds)[p]) == p
  {
    OrderCounts(kinds);
    forall v: nat | v < |kinds|
      ensures PlaceOf(kinds, v) < |kinds| && Order(kinds)[PlaceOf(kinds, v)] == v
    {
      RankOf(kinds, v);
    }
    forall p: nat | p < |kinds|
      ensures Order(kinds)[p] < |kinds| && PlaceOf(kinds, Order(kinds)[p]) == p
    {
      PlaceInOrder(kinds, p);
    }
  }

  lemma PlaceInOrder(kinds: seq<Kind>, p: nat)
    requires p < |Order(kinds)|
    ensures Order(kinds)[p] < |kinds| && PlaceOf(kinds, Order(kinds)[p]) == p
  {
    hide Rank;
    var s, d, b := |OfKind(kinds, Stat)|, |OfKind(kinds, Pred)|, |OfKind(kinds, Both)|;
    if p < s { RankUnique(kinds, Stat, p); }
    else if p < s + d { RankUnique(kinds, Pred, p - s); }
    else if p < s + d + b { RankUnique(kinds, Both, p - s - d); }
    else { RankUnique(kinds, Forw, p - s - d - b); }
  }

  // ----- the row of all atoms -----

  function Blocks(ordering: OrdType): seq<Block> {
    match ordering
    case PBSPBFBF => [Block(Pred, -1), Block(Both, -1), Block(Stat, 0), Block(Pred, 0), Block(Both, 0), Block(Forw, 0), Block(Both, 1), Block(Forw, 1)]
    case BFSPBFPB => [Block(Both, 1), Block(Forw, 1), Block(Stat, 0), Block(Pred, 0), Block(Both, 0), Block(Forw, 0), Block(Pred, -1), Block(Both, -1)]
  }

  /** The length of the row up to a block. */
  function Offset(kinds: seq<Kind>, blocks: seq<Block>): nat {
    if |blocks| == 0 then 0 else Offset(kinds, blocks[..|blocks| - 1]) + |OfKind(kinds, blocks[|blocks| - 1].kind)|
  }

  /** The tree indices of the variables in vs at a lead; some have none. */
  function Column(vars: map<Atom, nat>, names: seq<string>, vs: seq<nat>, ll: int): (c: seq<Option<nat>>)
    requires forall r :: 0 <= r < |vs| ==> vs[r] < |names|
    ensures |c| == |vs|
    ensures forall r :: 0 <= r < |vs| ==> c[r] == if Atom(names[vs[r]], ll) in vars then Some(vars[Atom(names[vs[r]], ll)]) else None
  {
    seq(|vs|, (r: int) requires 0 <= r < |vs| => if Atom(names[vs[r]], ll) in vars then Some(vars[Atom(names[vs[r]], ll)]) else None)
  }

  /** The row: the columns of the blocks one after the other. */
  function Row(vars: map<Atom, nat>, names: seq<string>, kinds: seq<Kind>, blocks: seq<Block>): (row: seq<Option<nat>>)
    requires |kinds| <= |names|
    ensures |row| == Offset(kinds, blocks)
  {
    if |blocks| == 0 then []
    else
      var b := blocks[|blocks| - 1];
      Row(vars, names, kinds, blocks[..|blocks| - 1]) + Column(vars, names, OfKind(kinds, b.kind), b.ll)
  }

  lemma {:induction false} OffsetBelow(kinds: seq<Kind>, blocks: seq<Block>, b: nat)
    requires b < |blocks|
    ensures Offset(kinds, blocks[..b]) + |OfKind(kinds, blocks[b].kind)| <= Offset(kinds, blocks)
    decreases |blocks|
  {
    hide OfKind;
    var n := |blocks| - 1;
    if b < n {
      assert blocks[..n][..b] == blocks[..b];
      OffsetBelow(kinds, blocks[..n], b);
    }
  }

  lemma RowStep(vars: map<Atom, nat>, names: seq<string>, kinds: seq<Kind>, blocks: seq<Block>)
    requires |kinds| <= |names| && |blocks| > 0
    ensures Row(vars, names, kinds, blocks) == Row(vars, names, kinds, blocks[..|blocks| - 1]) +
      Column(vars, names, OfKind(kinds, blocks[|blocks| - 1].kind), blocks[|blocks| - 1].ll)
  {
  }

  /** The cell at rank r of block b. */
  lemma {:induction false} RowAt(vars: map<Atom, nat>, names: seq<string>, kinds: seq<Kind>, blocks: seq<Block>, b: nat, r: nat)
    requires |kinds| <= |names| && b < |blocks| && r < |OfKind(kinds, blocks[b].kind)|
    ensures Offset(kinds, blocks[..b]) + r < Offset(kinds, blocks)
    ensures Row(vars, names, kinds, blocks)[Offset(kinds, blocks[..b]) + r] == Column(vars, names, OfKind(kinds, blocks[b].kind), blocks[b].ll)[r]
    decreases |blocks|
  {
    hide OfKind, Column;
    OffsetBelow(kinds, blocks, b);
    var n := |blocks| - 1;
    RowStep(vars, names, kinds, blocks);
    if b < n {
      assert blocks[..n][..b] == blocks[..b];
      OffsetBelow(kinds, blocks[..n], b);
      RowAt(vars, names, kinds, blocks[..n], b, r);
    }
  }

  /** Every cell belongs to a block. */
  lemma {:induction false} BlockAt(kinds: seq<Kind>, blocks: seq<Block>, p: nat) returns (b: nat, r: nat)
    requires p < Offset(kinds, blocks)
    ensures b < |blocks| && r < |OfKind(kinds, blocks[b].kind)| && p == Offset(kinds, blocks[..b]) + r
    decreases |blocks|
  {
    var n := |blocks| - 1;
    var before := Offset(kinds, blocks[..n]);
    if p < before {
      b, r := BlockAt(kinds, blocks[..n], p);
      assert blocks[..n][..b] == blocks[..b];
    } else {
      b, r := n, p - before;
    }
  }

  ghost predicate OnceEach(blocks: seq<Block>) {
    forall b, c :: 0 <= b < c < |blocks| ==> blocks[b] != blocks[c]
  }

  ghost predicate NamedOnce(vars: map<Atom, nat>, names: seq<string>) {
    && (forall i, k :: 0 <= i < k < |names| ==> names[i] != names[k])
    && (forall a: Atom, b: Atom :: a in vars && b in vars && vars[a] == vars[b] ==> a == b)
  }

  /** No tree index is in the row twice. */
  lemma RowOnce(vars: map<Atom, nat>, names: seq<string>, kinds: seq<Kind>, blocks: seq<Block>, p: nat, q: nat)
    requires |kinds| <= |names| && OnceEach(blocks) && NamedOnce(vars, names)
    requires p < Offset(kinds, blocks) && q < Offset(kinds, blocks)
    requires Row(vars, names, kinds, blocks)[p].Some? && Row(vars, names, kinds, blocks)[p] == Row(vars, names, kinds, blocks)[q]
    ensures p == q
  {
    hide OfKind, Column, Row, Offset;
    var b, r := BlockAt(kinds, blocks, p);
    var c, s := BlockAt(kinds, blocks, q);
    RowAt(vars, names, kinds, blocks, b, r);
    RowAt(vars, names, kinds, blocks, c, s);
    CellsOnce(vars, names, kinds, blocks[b], r, blocks[c], s);
  }

  /** Cells with the same tree index belong to the same block and variable. */
  lemma CellsOnce(vars: map<Atom, nat>, names: seq<string>, kinds: seq<Kind>, b: Block, r: nat, c: Block, s: nat)
    requires |kinds| <= |names| && NamedOnce(vars, names) && r < |OfKind(kinds, b.kind)| && s < |OfKind(kinds, c.kind)|
    requires Column(vars, names, OfKind(kinds, b.kind), b.ll)[r].Some?
    requires Column(vars, names, OfKind(kinds, b.kind), b.ll)[r] == Column(vars, names, OfKind(kinds, c.kind), c.ll)[s]
    ensures b == c && r == s
  {
    hide OfKind, Column, Rank;
    var v, w := OfKind(kinds, b.kind)[r], OfKind(kinds, c.kind)[s];
    assert Atom(names[v], b.ll) == Atom(names[w], c.ll);
    assert v == w;
    RankUnique(kinds, b.kind, r);
    RankUnique(kinds, c.kind, s);
  }

  /** The tree indices in a row. */
  function Present(row: seq<Option<nat>>): seq<nat> {
    if |row| == 0 then []
    else Present(row[..|row| - 1]) + (if row[|row| - 1].Some? then [row[|row| - 1].value] else [])
  }

  /** The positions are those of the tree indices in the row. */
  ghost predicate Placed(row: seq<Option<nat>>, positions: map<nat, nat>) {
    && (forall t: nat :: t in positions ==> positions[t] < |row| && row[positions[t]] == Some(t))
    && (forall p: nat :: p < |row| && row[p].Some? ==> row[p].value in positions && positions[row[p].value] == p)
  }

  /** The tree indices in the first n cells of a row come in the order of their positions. */
  lemma {:induction false} PresentInOrder(row: seq<Option<nat>>, positions: map<nat, nat>, n: nat)
    requires Placed(row, positions) && n <= |row|
    ensures forall i :: 0 <= i < |Present(row[..n])| ==> Present(row[..n])[i] in positions && positions[Present(row[..n])[i]] < n
    ensures forall i, k :: 0 <= i < k < |Present(row[..n])| ==> positions[Present(row[..n])[i]] < positions[Present(row[..n])[k]]
    ensures forall t: nat :: t in positions && positions[t] < n ==> t in Present(row[..n])
    decreases n
  {
    if n > 0 {
      PresentInOrder(row, positions, n - 1);
      assert row[..n][..n - 1] == row[..n - 1];
    }
  }

  lemma PlacedMore(row: seq<Option<nat>>, positions: map<nat, nat>, x: Option<nat>)
    requires Placed(row, positions) && (x.Some? ==> forall p: nat :: p < |row| ==> row[p] != x)
    ensures x.Some? ==> x.value !in positions
    ensures Placed(row + [x], if x.Some? then positions[x.value := |row|] else positions)
  {
  }

  /** The kinds of the variables follow from the leads of their atoms. */
  ghost predicate KindFits(vars: set<Atom>, name: string, k: Kind) {
    exists lag: int, lead: int :: Spans(AtomsNamed(vars, name), lag, lead) && KindOf(lag, lead) == Some(k)
  }

  ghost function AtomsNamed(vars: set<Atom>, name: string): set<Atom> {
    set a: Atom | a in vars && a.name == name
  }

  /** The variable lags and leads by at most one, and occurs. */
  ghost predicate Orderable(vars: set<Atom>, name: string) {
    AtomsNamed(vars, name) != {} && forall a: Atom :: a in vars && a.name == name ==> -1 <= a.ll <= 1
  }

  lemma OrderableHasKind(vars: set<Atom>, name: string, lag: int, lead: int)
    requires Spans(AtomsNamed(vars, name), lag, lead)
    ensures KindOf(lag, lead).Some? <==> Orderable(vars, name)
  {
  }

  /** Every atom of a variable has a block in either ordering. */
  lemma AtomHasBlock(vars: set<Atom>, name: string, k: Kind, ll: int, ordering: OrdType)
    requires KindFits(vars, name, k) && Atom(name, ll) in vars
    ensures Block(k, ll) in Blocks(ordering)
  {
    var lag: int, lead: int :| Spans(AtomsNamed(vars, name), lag, lead) && KindOf(lag, lead) == Some(k);
    assert Atom(name, ll) in AtomsNamed(vars, name);
    var bs := Blocks(ordering);
    match ordering {
      case PBSPBFBF => assert bs[0] == Block(Pred, -1) && bs[1] == Block(Both, -1) && bs[2] == Block(Stat, 0) && bs[3] == Block(Pred, 0) &&
                              bs[4] == Block(Both, 0) && bs[5] == Block(Forw, 0) && bs[6] == Block(Both, 1) && bs[7] == Block(Forw, 1);
      case BFSPBFPB => assert bs[0] == Block(Both, 1) && bs[1] == Block(Forw, 1) && bs[2] == Block(Stat, 0) && bs[3] == Block(Pred, 0) &&
                              bs[4] == Block(Both, 0) && bs[5] == Block(Forw, 0) && bs[6] == Block(Pred, -1) && bs[7] == Block(Both, -1);
    }
  }

  lemma BlocksOnce(ordering: OrdType)
    ensures OnceEach(Blocks(ordering)) && |Blocks(ordering)| == 8
  {
  }

  // ----- building the row -----

  /** The tree indices of the variables by kind and lead, and the variables by kind. */
  datatype Columns = Columns(predMinus: seq<Option<nat>>, bothMinus: seq<Option<nat>>, stat: seq<Option<nat>>, predPad: seq<Option<nat>>,
                             bothPad: seq<Option<nat>>, forwPad: seq<Option<nat>>, bothPlus: seq<Option<nat>>, forwPlus: seq<Option<nat>>)
  datatype Groups = Groups(stat: seq<nat>, pred: seq<nat>, both: seq<nat>, forw: seq<nat>)

  ghost predicate Filled(vars: map<Atom, nat>, names: seq<string>, kinds: seq<Kind>, c: Columns)
    requires |kinds| <= |names|
  {
    var s, p, b, f := OfKind(kinds, Stat), OfKind(kinds, Pred), OfKind(kinds, Both), OfKind(kinds, Forw);
    && c.predMinus == Column(vars, names, p, -1) && c.bothMinus == Column(vars, names, b, -1) && c.stat == Column(vars, names, s, 0)
    && c.predPad == Column(vars, names, p, 0) && c.bothPad == Column(vars, names, b, 0) && c.forwPad == Column(vars, names, f, 0)
    && c.bothPlus == Column(vars, names, b, 1) && c.forwPlus == Column(vars, names, f, 1)
  }

  ghost predicate Grouped(kinds: seq<Kind>, g: Groups) {
    g.stat == OfKind(kinds, Stat) && g.pred == OfKind(kinds, Pred) && g.both == OfKind(kinds, Both) && g.forw == OfKind(kinds, Forw)
  }

  /** The columns with one more variable, whose tree indices are m, z and p. */
  function AddedColumns(k: Kind, m: Option<nat>, z: Option<nat>, p: Option<nat>, c: Columns): Columns {
    match k
    case Stat => c.(stat := c.stat + [z])
    case Pred => c.(predMinus := c.predMinus + [m], predPad := c.predPad + [z])
    case Forw => c.(forwPad := c.forwPad + [z], forwPlus := c.forwPlus + [p])
    case Both => c.(bothMinus := c.bothMinus + [m], bothPad := c.bothPad + [z], bothPlus := c.bothPlus + [p])
  }

  function AddedGroups(k: Kind, i: nat, g: Groups): Groups {
    match k
    case Stat => g.(stat := g.stat + [i])
    case Pred => g.(pred := g.pred + [i])
    case Forw => g.(forw := g.forw + [i])
    case Both => g.(both := g.both + [i])
  }

  lemma KindMore(kinds: seq<Kind>, k: Kind)
    ensures forall j: Kind :: OfKind(kinds + [k], j) == OfKind(kinds, j) + (if j == k then [|kinds|] else [])
  {
    assert (kinds + [k])[..|kinds|] == kinds;
  }

  lemma ColumnMore(vars: map<Atom, nat>, names: seq<string>, vs: seq<nat>, ll: int, i: nat)
    requires (forall r :: 0 <= r < |vs| ==> vs[r] < |names|) && i < |names|
    ensures Column(vars, names, vs + [i], ll) == Column(vars, names, vs, ll) + [if Atom(names[i], ll) in vars then Some(vars[Atom(names[i], ll)]) else None]
  {
  }

  /** The order of the columns in the row. */
  function Arranged(ordering: OrdType, c: Columns): seq<seq<Option<nat>>> {
    match ordering
    case PBSPBFBF => [c.predMinus, c.bothMinus, c.stat, c.predPad, c.bothPad, c.forwPad, c.bothPlus, c.forwPlus]
    case BFSPBFPB => [c.bothPlus, c.forwPlus, c.stat, c.predPad, c.bothPad, c.forwPad, c.predMinus, c.bothMinus]
  }

  ghost predicate InBlocks(vars: map<Atom, nat>, names: seq<string>, kinds: seq<Kind>, blocks: seq<Block>, ords: seq<seq<Option<nat>>>)
    requires |kinds| <= |names|
  {
    |ords| == |blocks| && forall b :: 0 <= b < |blocks| ==> ords[b] == Column(vars, names, OfKind(kinds, blocks[b].kind), blocks[b].ll)
  }

  lemma ArrangedInBlocks(vars: map<Atom, nat>, names: seq<string>, kinds: seq<Kind>, ordering: OrdType, c: Columns)
    requires |kinds| <= |names| && Filled(vars, names, kinds, c)
    ensures InBlocks(vars, names, kinds, Blocks(ordering), Arranged(ordering, c))
  {
    hide OfKind, Column;
  }

  class VarOrdering {
    const varnames: seq<string>
    const atoms: DynamicAtoms
    var nStat: nat
    var nPred: nat
    var nBoth: nat
    var nForw: nat
    var derAtoms: seq<nat>
    var positions: map<nat, nat>
    var outer2y: seq<int>
    var y2outer: seq<nat>
    ghost var kinds: seq<Kind>

    constructor (names: seq<string>, a: DynamicAtoms)
      ensures varnames == names && atoms == a && derAtoms == [] && positions == map[] && y2outer == [] && outer2y == []
    {
      varnames, atoms := names, a;
      nStat, nPred, nBoth, nForw := 0, 0, 0, 0;
      derAtoms, positions, outer2y, y2outer, kinds := [], map[], [], [], [];
    }

    function Length(): nat
      reads this
    {
      nStat + 2 * nPred + 3 * nBoth + 2 * nForw
    }

    /** Each variable has the kind that its leads say. */
    ghost predicate Fits(ks: seq<Kind>)
      reads atoms
    {
      |ks| <= |varnames| && forall v :: 0 <= v < |ks| ==> KindFits(atoms.vars.Keys, varnames[v], ks[v])
    }

    ghost function TheRow(ordering: OrdType): seq<Option<nat>>
      requires |kinds| <= |varnames|
      reads this, atoms
    {
      Row(atoms.vars, varnames, kinds, Blocks(ordering))
    }

    /** The variables and their atoms are laid out in this order. */
    ghost predicate Ordered(ordering: OrdType)
      reads this, atoms
    {
      && |kinds| == |varnames| && Fits(kinds)
      && nStat == |OfKind(kinds, Stat)| && nPred == |OfKind(kinds, Pred)| && nBoth == |OfKind(kinds, Both)| && nForw == |OfKind(kinds, Forw)|
      && y2outer == Order(kinds)
      && |outer2y| == |varnames| && (forall v: nat :: v < |varnames| ==> outer2y[v] == PlaceOf(kinds, v))
      && Placed(TheRow(ordering), positions) && derAtoms == Present(TheRow(ordering))
    }

    /** The variables that occur at this lead. */
    ghost function OccurringAt(ll: int): set<nat>
      reads atoms
    {
      set v: nat | v < |varnames| && Atom(varnames[v], ll) in atoms.vars
    }

    /** The group of a variable in the order: neither lag nor lead, a lag, both, a lead. */
    ghost function Group(v: nat): nat
      requires v < |varnames|
      reads atoms
    {
      if Atom(varnames[v], 1) in atoms.vars then if Atom(varnames[v], -1) in atoms.vars then 2 else 3
      else if Atom(varnames[v], -1) in atoms.vars then 1 else 0
    }

    /** The atom has the position that its lead and the place of its variable say: leads, current values and lags are kept together,
        and those in front are the leads or the lags. */
    ghost predicate AtomPlaced(ordering: OrdType, v: nat, a: Atom)
      requires v < |outer2y| && a in atoms.vars
      reads this, atoms
    {
      && atoms.vars[a] in positions && -1 <= a.ll <= 1
      && var p, y, ny, leads, lags := positions[atoms.vars[a]], outer2y[v], |varnames|, |OccurringAt(1)|, |OccurringAt(-1)|;
         match ordering
         case BFSPBFPB =>
           && (a.ll == 1 ==> p == y - (ny - leads) < leads) && (a.ll == 0 ==> p == leads + y && leads <= p < leads + ny)
           && (a.ll == -1 ==> p == leads + ny + y - nStat >= leads + ny)
         case PBSPBFBF =>
           && (a.ll == -1 ==> p == y - nStat < lags) && (a.ll == 0 ==> p == lags + y && lags <= p < lags + ny)
           && (a.ll == 1 ==> p == lags + ny + y - (ny - leads) >= lags + ny)
    }

    ghost predicate CountsRead()
      reads this, atoms
    {
      && |outer2y| == |varnames| && nStat + nPred + nBoth + nForw == |varnames|
      && nBoth + nForw == |OccurringAt(1)| && nPred + nBoth == |OccurringAt(-1)| && nBoth == |OccurringAt(1) * OccurringAt(-1)|
    }

    ghost predicate VariablesInOrder()
      requires |outer2y| == |varnames|
      reads this, atoms
    {
      forall v: nat, w: nat :: v < |varnames| && w < |varnames| && v != w ==>
        (outer2y[v] < outer2y[w] <==> Group(v) < Group(w) || (Group(v) == Group(w) && v < w))
    }

    ghost predicate DerAtomsInOrder()
      reads this
    {
      && (forall t: nat :: t in derAtoms <==> t in positions)
      && (forall i, k :: 0 <= i < k < |derAtoms| ==> positions[derAtoms[i]] < positions[derAtoms[k]])
    }

    /** The counts, the order of the variables and all positions, read off the atoms. */
    ghost predicate LaidOut(ordering: OrdType)
      reads this, atoms
    {
      && CountsRead() && VariablesInOrder() && DerAtomsInOrder()
      && (forall v: nat, a: Atom :: IsVariable(this, v, a) ==> AtomPlaced(ordering, v, a))
    }

    lemma OrderedCounts(ordering: OrdType)
      requires Ordered(ordering)
      ensures CountsRead()
      ensures forall v: nat :: v < |varnames| ==> Group(v) == KindNumber(kinds[v])
    {
      hide OfKind, KindFits, Row, Order, Placed, Present, PlaceOf;
      KindCounts(kinds);
      forall v: nat | v < |varnames|
        ensures kinds[v] == Pred || kinds[v] == Both <==> Atom(varnames[v], -1) in atoms.vars
        ensures kinds[v] == Both || kinds[v] == Forw <==> Atom(varnames[v], 1) in atoms.vars
      {
        KindSays(atoms.vars.Keys, varnames[v], kinds[v]);
      }
      CountBoth(kinds, Both, Forw, OccurringAt(1));
      CountBoth(kinds, Pred, Both, OccurringAt(-1));
      CountMembers(kinds, Both);
      assert OccurringAt(1) * OccurringAt(-1) == Members(kinds, Both);
    }

    lemma OrderedPlaces(ordering: OrdType)
      requires Ordered(ordering)
      ensures VariablesInOrder()
    {
      hide OfKind, KindFits, Row, Order, Placed, Present, PlaceOf, Group, Blocks;
      OrderedCounts(ordering);
      forall v: nat, w: nat | v < |varnames| && w < |varnames| && v != w
        ensures outer2y[v] < outer2y[w] <==> Group(v) < Group(w) || (Group(v) == Group(w) && v < w)
      {
        PlacesInOrder(kinds, v, w);
      }
    }

    lemma OrderedAtom(ordering: OrdType, v: nat, a: Atom)
      requires Ordered(ordering) && IsVariable(this, v, a)
      ensures AtomPlaced(ordering, v, a)
    {
      AtomInRange(a, v);
      var b := PositionOf(this, ordering, v, a);
      CellPlaced(ordering, v, a, b);
    }

    lemma CellPlaced(ordering: OrdType, v: nat, a: Atom, b: nat)
      requires Ordered(ordering) && IsVariable(this, v, a) && -1 <= a.ll <= 1
      requires b < 8 && Blocks(ordering)[b] == Block(kinds[v], a.ll) && atoms.vars[a] in positions
      requires positions[atoms.vars[a]] == Offset(kinds, Blocks(ordering)[..b]) + Rank(kinds, v)
      ensures AtomPlaced(ordering, v, a)
    {
      OrderedCounts(ordering);
      PlaceIs(ordering, v);
      hide Ordered, PlaceOf, Rank, Offset, OccurringAt, Group, Blocks, IsVariable, OfKind;
      match ordering
      case BFSPBFPB => LeadsFirstCell(kinds, v, b);
      case PBSPBFBF => LagsFirstCell(kinds, v, b);
    }

    lemma PlaceIs(ordering: OrdType, v: nat)
      requires Ordered(ordering) && v < |varnames|
      ensures |kinds| == |outer2y| == |varnames| && outer2y[v] == PlaceOf(kinds, v) && nStat == |OfKind(kinds, Stat)| && nPred == |OfKind(kinds, Pred)|
      ensures nBoth == |OfKind(kinds, Both)| && nForw == |OfKind(kinds, Forw)|
    {
      hide OfKind, PlaceOf, Row, Order, Placed, Present;
    }

    lemma AtomInRange(a: Atom, v: nat)
      requires |kinds| == |varnames| && Fits(kinds) && IsVariable(this, v, a)
      ensures -1 <= a.ll <= 1
    {
      assert KindFits(atoms.vars.Keys, varnames[v], kinds[v]);
      assert a in AtomsNamed(atoms.vars.Keys, varnames[v]);
    }

    lemma OrderedDerAtoms(ordering: OrdType)
      requires Ordered(ordering)
      ensures DerAtomsInOrder()
    {
      hide OfKind, Row, Order, PlaceOf, Blocks;
      var row := TheRow(ordering);
      PresentInOrder(row, positions, |row|);
      assert row[..|row|] == row;
    }

    /** The layout by blocks is the one read off the atoms. */
    lemma OrderedIsLaidOut(ordering: OrdType)
      requires Ordered(ordering)
      ensures LaidOut(ordering)
    {
      hide Ordered, AtomPlaced, Group, VariablesInOrder, DerAtomsInOrder, IsVariable;
      OrderedCounts(ordering);
      OrderedPlaces(ordering);
      OrderedDerAtoms(ordering);
      forall v: nat, a: Atom | IsVariable(this, v, a)
        ensures v < |outer2y| && a in atoms.vars && AtomPlaced(ordering, v, a)
      {
        KnownVariable(v, a);
        OrderedAtom(ordering, v, a);
      }
    }

    lemma KnownVariable(v: nat, a: Atom)
      requires IsVariable(this, v, a)
      ensures v < |varnames| && a in atoms.vars
    {
    }

    /** Sorts the variables by kind; fails exactly when one of them does not occur or has a lag or a lead greater than one. */
    method Classify() returns (ok: bool, c: Columns, g: Groups, ghost ks: seq<Kind>)
      requires atoms.Valid()
      ensures ok <==> forall v :: 0 <= v < |varnames| ==> Orderable(atoms.vars.Keys, varnames[v])
      ensures ok ==> |ks| == |varnames| && Fits(ks) && Filled(atoms.vars, varnames, ks, c) && Grouped(ks, g)
    {
      hide OfKind, Column, Spans, KindFits, Orderable, KindOf;
      c, g, ks := Columns([], [], [], [], [], [], [], []), Groups([], [], [], []), [];
      NothingFilled(atoms.vars);
      for i := 0 to |varnames|
        invariant |ks| == i && Fits(ks) && Filled(atoms.vars, varnames, ks, c) && Grouped(ks, g)
        invariant forall v :: 0 <= v < i ==> Orderable(atoms.vars.Keys, varnames[v])
      {
        ghost var k;
        ok, c, g, k := ClassifyOne(i, c, g, ks);
        if !ok {
          return;
        }
        ks := ks + [k];
      }
      ok := true;
    }

    lemma NothingFilled(vars: map<Atom, nat>)
      ensures Filled(vars, varnames, [], Columns([], [], [], [], [], [], [], [])) && Grouped([], Groups([], [], [], []))
    {
    }

    /** Adds one variable to the columns and the group of its kind. */
    method ClassifyOne(i: nat, c0: Columns, g0: Groups, ghost ks: seq<Kind>) returns (ok: bool, c: Columns, g: Groups, ghost k: Kind)
      requires atoms.Valid() && i < |varnames| && |ks| == i && Fits(ks) && Filled(atoms.vars, varnames, ks, c0) && Grouped(ks, g0)
      ensures ok <==> Orderable(atoms.vars.Keys, varnames[i])
      ensures ok ==> Fits(ks + [k]) && Filled(atoms.vars, varnames, ks + [k], c) && Grouped(ks + [k], g)
    {
      hide OfKind, Column, Spans, Orderable, Filled, Grouped;
      var ss := varnames[i];
      c, g, k := c0, g0, Stat;
      var lead, lag := atoms.VarspanOfName(ss);
      SameSpan(ss, lag, lead);
      OrderableHasKind(atoms.vars.Keys, ss, lag, lead);
      ok := true;
      if lag == 0 && lead == 0 {
        c := c.(stat := c.stat + [atoms.Index(Atom(ss, 0))]);
        g := g.(stat := g.stat + [i]);
      } else if lag == -1 && lead < 1 {
        k := Pred;
        c := c.(predMinus := c.predMinus + [atoms.Index(Atom(ss, -1))], predPad := c.predPad + [atoms.Index(Atom(ss, 0))]);
        g := g.(pred := g.pred + [i]);
      } else if lag > -1 && lead == 1 {
        k := Forw;
        c := c.(forwPad := c.forwPad + [atoms.Index(Atom(ss, 0))], forwPlus := c.forwPlus + [atoms.Index(Atom(ss, 1))]);
        g := g.(forw := g.forw + [i]);
      } else if lag == -1 && lead == 1 {
        k := Both;
        c := c.(bothMinus := c.bothMinus + [atoms.Index(Atom(ss, -1))], bothPad := c.bothPad + [atoms.Index(Atom(ss, 0))],
                bothPlus := c.bothPlus + [atoms.Index(Atom(ss, 1))]);
        g := g.(both := g.both + [i]);
      } else {
        return false, c, g, k;
      }
      assert KindFits(atoms.vars.Keys, ss, k);
      assert c == AddedColumns(k, atoms.Index(Atom(ss, -1)), atoms.Index(Atom(ss, 0)), atoms.Index(Atom(ss, 1)), c0) && g == AddedGroups(k, i, g0);
      FilledMore(ks, k, c0, g0);
    }

    lemma FilledMore(ks: seq<Kind>, k: Kind, c: Columns, g: Groups)
      requires |ks| < |varnames| && Fits(ks) && Filled(atoms.vars, varnames, ks, c) && Grouped(ks, g)
      requires KindFits(atoms.vars.Keys, varnames[|ks|], k)
      ensures Fits(ks + [k]) && Grouped(ks + [k], AddedGroups(k, |ks|, g))
      ensures Filled(atoms.vars, varnames, ks + [k], AddedColumns(k, atoms.Index(Atom(varnames[|ks|], -1)), atoms.Index(Atom(varnames[|ks|], 0)),
                                                                  atoms.Index(Atom(varnames[|ks|], 1)), c))
    {
      hide OfKind, Column, KindFits;
      OneMore(ks, k, c);
      assert forall j: Kind :: ColumnGrows(ks, k, j, -1) && ColumnGrows(ks, k, j, 0) && ColumnGrows(ks, k, j, 1);
    }

    lemma SameSpan(name: string, lag: int, lead: int)
      requires Spans(atoms.AtomsOf({name}), lag, lead)
      ensures Spans(AtomsNamed(atoms.vars.Keys, name), lag, lead)
    {
      assert atoms.AtomsOf({name}) == AtomsNamed(atoms.vars.Keys, name);
    }

    /** What the columns become with one more variable. */
    lemma OneMore(ks: seq<Kind>, k: Kind, c: Columns)
      requires |ks| < |varnames| && Filled(atoms.vars, varnames, ks, c)
      ensures forall j: Kind :: OfKind(ks + [k], j) == OfKind(ks, j) + (if j == k then [|ks|] else [])
      ensures forall j: Kind, ll: int :: ColumnGrows(ks, k, j, ll)
    {
      hide OfKind, Column, ColumnGrows;
      KindMore(ks, k);
      forall j: Kind, ll: int
        ensures ColumnGrows(ks, k, j, ll)
      {
        OneMoreAt(ks, k, j, ll);
      }
    }

    ghost predicate ColumnGrows(ks: seq<Kind>, k: Kind, j: Kind, ll: int)
      requires |ks| < |varnames|
      reads atoms
    {
      Column(atoms.vars, varnames, OfKind(ks + [k], j), ll) ==
      Column(atoms.vars, varnames, OfKind(ks, j), ll) + (if j == k then [atoms.Index(Atom(varnames[|ks|], ll))] else [])
    }

    lemma OneMoreAt(ks: seq<Kind>, k: Kind, j: Kind, ll: int)
      requires |ks| < |varnames|
      ensures ColumnGrows(ks, k, j, ll)
    {
      hide OfKind, Column;
      KindMore(ks, k);
      if j == k { ColumnMore(atoms.vars, varnames, OfKind(ks, j), ll, |ks|); }
    }

    /** Gives the tree indices of the columns their positions. */
    method PlaceAll(ords: seq<seq<Option<nat>>>, ghost blocks: seq<Block>)
      requires |kinds| <= |varnames| && InBlocks(atoms.vars, varnames, kinds, blocks, ords) && OnceEach(blocks)
      requires NamedOnce(atoms.vars, varnames) && positions == map[] && derAtoms == []
      modifies this`derAtoms, this`positions
      ensures Placed(Row(atoms.vars, varnames, kinds, blocks), positions)
      ensures derAtoms == Present(Row(atoms.vars, varnames, kinds, blocks))
    {
      hide OfKind, Column, Row, Offset, NamedOnce, Present;
      ghost var row: seq<Option<nat>> := [];
      var off := 0;
      RowNone();
      for b := 0 to |ords|
        invariant row == Row(atoms.vars, varnames, kinds, blocks[..b]) && off == |row|
        invariant Placed(row, positions) && derAtoms == Present(row)
      {
        NextRow(blocks, b);
        PlaceColumn(ords[b], off, row, blocks[..b + 1]);
        row := row + ords[b];
        off := off + |ords[b]|;
      }
      assert blocks[..|blocks|] == blocks;
    }

    /** Gives the tree indices of one column their positions. */
    method PlaceColumn(ord: seq<Option<nat>>, off0: nat, ghost before: seq<Option<nat>>, ghost blocks: seq<Block>)
      requires |kinds| <= |varnames| && OnceEach(blocks) && NamedOnce(atoms.vars, varnames)
      requires Row(atoms.vars, varnames, kinds, blocks) == before + ord && off0 == |before|
      requires Placed(before, positions) && derAtoms == Present(before)
      modifies this`derAtoms, this`positions
      ensures Placed(before + ord, positions) && derAtoms == Present(before + ord)
    {
      hide OfKind, Column, Row, Offset, NamedOnce, Present, Placed;
      var off := off0;
      assert before + ord[..0] == before;
      for j := 0 to |ord|
        invariant off == |before| + j && Placed(before + ord[..j], positions) && derAtoms == Present(before + ord[..j])
      {
        ghost var row := before + ord[..j];
        var x := ord[j];
        NewInRow(blocks, row, x);
        PlacedMore(row, positions, x);
        PresentMore(row, x);
        if x.Some? {
          derAtoms := derAtoms + [x.value];
          if x.value !in positions {
            positions := positions[x.value := off];
          }
        }
        off := off + 1;
        assert before + ord[..j + 1] == row + [x];
      }
      assert ord[..|ord|] == ord;
    }

    lemma PresentMore(row: seq<Option<nat>>, x: Option<nat>)
      ensures Present(row + [x]) == Present(row) + (if x.Some? then [x.value] else [])
    {
      assert (row + [x])[..|row|] == row;
    }

    lemma RowNone()
      requires |kinds| <= |varnames|
      ensures Row(atoms.vars, varnames, kinds, []) == [] && Placed([], map[]) && Present([]) == []
    {
    }

    lemma NextRow(blocks: seq<Block>, b: nat)
      requires |kinds| <= |varnames| && b < |blocks|
      ensures Row(atoms.vars, varnames, kinds, blocks[..b + 1]) ==
        Row(atoms.vars, varnames, kinds, blocks[..b]) + Column(atoms.vars, varnames, OfKind(kinds, blocks[b].kind), blocks[b].ll)
    {
      hide OfKind, Column;
      assert blocks[..b + 1][..b] == blocks[..b];
    }

    /** A cell of the row is not in the row before it. */
    lemma NewInRow(blocks: seq<Block>, row: seq<Option<nat>>, x: Option<nat>)
      requires |kinds| <= |varnames| && OnceEach(blocks) && NamedOnce(atoms.vars, varnames)
      requires |row| < |Row(atoms.vars, varnames, kinds, blocks)| && row == Row(atoms.vars, varnames, kinds, blocks)[..|row|]
      requires x == Row(atoms.vars, varnames, kinds, blocks)[|row|]
      ensures x.Some? ==> forall p: nat :: p < |row| ==> row[p] != x
    {
      hide OfKind, Column, Row, Offset, NamedOnce;
      forall p: nat | p < |row| && row[p] == x && x.Some?
        ensures false
      {
        RowOnce(atoms.vars, varnames, kinds, blocks, p, |row|);
      }
    }

    /** Lays out the variables and their atoms; fails exactly when a variable does not occur or has a lag or a lead greater than one. */
    method DoGeneral(ordering: OrdType) returns (ok: bool)
      requires atoms.Valid() && (forall i, k :: 0 <= i < k < |varnames| ==> varnames[i] != varnames[k])
      requires derAtoms == [] && positions == map[] && y2outer == [] && outer2y == []
      modifies this
      ensures ok <==> forall v :: 0 <= v < |varnames| ==> Orderable(atoms.vars.Keys, varnames[v])
      ensures ok ==> Ordered(ordering) && LaidOut(ordering)
    {
      hide OfKind, Column, Row, Offset, KindFits, Orderable, Present, Placed, Rank, Start, NamedOnce, LaidOut;
      var c, g;
      ghost var ks;
      ok, c, g, ks := Classify();
      if !ok {
        return;
      }
      kinds := ks;
      var ords := Arranged(ordering, c);
      ArrangedInBlocks(atoms.vars, varnames, ks, ordering, c);
      BlocksOnce(ordering);
      AtomsOnce();
      PlaceAll(ords, Blocks(ordering));
      nStat, nPred, nBoth, nForw := |g.stat|, |c.predPad|, |c.bothPad|, |g.forw|;
      MakeMappings(g);
      OrderedIsLaidOut(ordering);
    }

    /** Sets the order of the variables and its inverse. */
    method MakeMappings(g: Groups)
      requires Grouped(kinds, g) && y2outer == [] && outer2y == []
      modifies this`y2outer, this`outer2y
      ensures y2outer == Order(kinds) && |outer2y| == |kinds| && forall v: nat :: v < |kinds| ==> outer2y[v] == PlaceOf(kinds, v)
    {
      hide OfKind, PlaceOf;
      y2outer := y2outer + g.stat;
      y2outer := y2outer + g.pred;
      y2outer := y2outer + g.both;
      y2outer := y2outer + g.forw;
      assert y2outer == Order(kinds);
      OrderPlaces(kinds);
      Invert();
    }

    /** Sets the inverse of the order of the variables. */
    method Invert()
      requires |y2outer| == |kinds| && outer2y == []
      requires forall v: nat :: v < |kinds| ==> PlaceOf(kinds, v) < |kinds| && y2outer[PlaceOf(kinds, v)] == v
      requires forall p: nat :: p < |kinds| ==> y2outer[p] < |kinds| && PlaceOf(kinds, y2outer[p]) == p
      modifies this`outer2y
      ensures |outer2y| == |kinds| && forall v: nat :: v < |kinds| ==> outer2y[v] == PlaceOf(kinds, v)
    {
      hide PlaceOf;
      outer2y := seq(|y2outer|, _ => -1);
      for i := 0 to |y2outer|
        invariant |outer2y| == |y2outer|
        invariant forall v: nat :: v < |kinds| && PlaceOf(kinds, v) < i ==> outer2y[v] == PlaceOf(kinds, v)
      {
        outer2y := outer2y[y2outer[i] := i];
      }
    }

    lemma AtomsOnce()
      requires atoms.Valid() && (forall i, k :: 0 <= i < k < |varnames| ==> varnames[i] != varnames[k])
      ensures NamedOnce(atoms.vars, varnames)
    {
      hide Spans;
    }
  }

  // ----- the layout read off the atoms -----

  lemma OffsetStep(kinds: seq<Kind>, blocks: seq<Block>, b: nat)
    requires b < |blocks|
    ensures Offset(kinds, blocks[..b + 1]) == Offset(kinds, blocks[..b]) + |OfKind(kinds, blocks[b].kind)|
  {
    assert blocks[..b + 1][..b] == blocks[..b];
  }

  /** Where the blocks start when leads come first and lags last. */
  lemma LeadsFirst(kinds: seq<Kind>)
    ensures var bs := Blocks(BFSPBFPB);
      var s, p, b, f := |OfKind(kinds, Stat)|, |OfKind(kinds, Pred)|, |OfKind(kinds, Both)|, |OfKind(kinds, Forw)|;
      && Offset(kinds, bs[..0]) == 0 && Offset(kinds, bs[..1]) == b && Offset(kinds, bs[..2]) == b + f
      && Offset(kinds, bs[..3]) == b + f + s && Offset(kinds, bs[..4]) == b + f + s + p && Offset(kinds, bs[..5]) == b + f + s + p + b
      && Offset(kinds, bs[..6]) == b + f + s + p + b + f && Offset(kinds, bs[..7]) == b + f + s + p + b + f + p
      && Offset(kinds, bs) == s + 2 * p + 3 * b + 2 * f
  {
    hide OfKind;
    var bs := Blocks(BFSPBFPB);
    OffsetStep(kinds, bs, 0);
    OffsetStep(kinds, bs, 1);
    OffsetStep(kinds, bs, 2);
    OffsetStep(kinds, bs, 3);
    OffsetStep(kinds, bs, 4);
    OffsetStep(kinds, bs, 5);
    OffsetStep(kinds, bs, 6);
    OffsetStep(kinds, bs, 7);
    assert bs[..8] == bs;
  }

  /** And when lags come first. */
  lemma LagsFirst(kinds: seq<Kind>)
    ensures var bs := Blocks(PBSPBFBF);
      var s, p, b, f := |OfKind(kinds, Stat)|, |OfKind(kinds, Pred)|, |OfKind(kinds, Both)|, |OfKind(kinds, Forw)|;
      && Offset(kinds, bs[..0]) == 0 && Offset(kinds, bs[..1]) == p && Offset(kinds, bs[..2]) == p + b
      && Offset(kinds, bs[..3]) == p + b + s && Offset(kinds, bs[..4]) == p + b + s + p && Offset(kinds, bs[..5]) == p + b + s + p + b
      && Offset(kinds, bs[..6]) == p + b + s + p + b + f && Offset(kinds, bs[..7]) == p + b + s + p + b + f + b
      && Offset(kinds, bs) == s + 2 * p + 3 * b + 2 * f
  {
    hide OfKind;
    var bs := Blocks(PBSPBFBF);
    OffsetStep(kinds, bs, 0);
    OffsetStep(kinds, bs, 1);
    OffsetStep(kinds, bs, 2);
    OffsetStep(kinds, bs, 3);
    OffsetStep(kinds, bs, 4);
    OffsetStep(kinds, bs, 5);
    OffsetStep(kinds, bs, 6);
    OffsetStep(kinds, bs, 7);
    assert bs[..8] == bs;
  }

  /** The name and the number of a variable. */
  ghost predicate IsVariable(o: VarOrdering, v: nat, a: Atom)
    reads o, o.atoms
  {
    v < |o.varnames| && a in o.atoms.vars && a.name == o.varnames[v]
  }

  /** The position of an atom: the offset of the block of its variable's kind and its lead, and the rank of the variable. */
  lemma PositionOf(o: VarOrdering, ordering: OrdType, v: nat, a: Atom) returns (b: nat)
    requires o.Ordered(ordering) && IsVariable(o, v, a)
    ensures b < 8 && Blocks(ordering)[b] == Block(o.kinds[v], a.ll)
    ensures o.atoms.vars[a] in o.positions
    ensures o.positions[o.atoms.vars[a]] == Offset(o.kinds, Blocks(ordering)[..b]) + Rank(o.kinds, v) < Offset(o.kinds, Blocks(ordering))
  {
    hide OfKind, Row, Column, Order, Rank, Start, Present, KindFits, Offset;
    assert KindFits(o.atoms.vars.Keys, o.varnames[v], o.kinds[v]);
    AtomHasBlock(o.atoms.vars.Keys, a.name, o.kinds[v], a.ll, ordering);
    BlocksOnce(ordering);
    b :| 0 <= b < |Blocks(ordering)| && Blocks(ordering)[b] == Block(o.kinds[v], a.ll);
    RankOf(o.kinds, v);
    RowAt(o.atoms.vars, o.varnames, o.kinds, Blocks(ordering), b, Rank(o.kinds, v));
  }

  /** Where block b puts the variable at place y of the order, when leads come first. */
  lemma LeadsFirstCell(kinds: seq<Kind>, v: nat, b: nat)
    requires v < |kinds| && b < 8 && Blocks(BFSPBFPB)[b].kind == kinds[v]
    ensures var ll, p, y := Blocks(BFSPBFPB)[b].ll, Offset(kinds, Blocks(BFSPBFPB)[..b]) + Rank(kinds, v), PlaceOf(kinds, v);
      var stat, pred, leads := |OfKind(kinds, Stat)|, |OfKind(kinds, Pred)|, |OfKind(kinds, Both)| + |OfKind(kinds, Forw)|;
      && (ll == 1 ==> p == y - stat - pred < leads)
      && (ll == 0 ==> p == leads + y && leads <= p < leads + |kinds|)
      && (ll == -1 ==> p == leads + |kinds| + y - stat >= leads + |kinds|)
  {
    hide OfKind, Rank, Order;
    LeadsFirst(kinds);
    OrderCounts(kinds);
    KindCounts(kinds);
    RankOf(kinds, v);
    var bs := Blocks(BFSPBFPB);
    assert bs[0] == Block(Both, 1) && bs[1] == Block(Forw, 1) && bs[2] == Block(Stat, 0) && bs[3] == Block(Pred, 0) &&
           bs[4] == Block(Both, 0) && bs[5] == Block(Forw, 0) && bs[6] == Block(Pred, -1) && bs[7] == Block(Both, -1);
  }

  lemma LagsFirstCell(kinds: seq<Kind>, v: nat, b: nat)
    requires v < |kinds| && b < 8 && Blocks(PBSPBFBF)[b].kind == kinds[v]
    ensures var ll, p, y := Blocks(PBSPBFBF)[b].ll, Offset(kinds, Blocks(PBSPBFBF)[..b]) + Rank(kinds, v), PlaceOf(kinds, v);
      var stat, pred, lags := |OfKind(kinds, Stat)|, |OfKind(kinds, Pred)|, |OfKind(kinds, Pred)| + |OfKind(kinds, Both)|;
      && (ll == -1 ==> p == y - stat < lags)
      && (ll == 0 ==> p == lags + y && lags <= p < lags + |kinds|)
      && (ll == 1 ==> p == lags + |kinds| + y - stat - pred >= lags + |kinds|)
  {
    hide OfKind, Rank, Order;
    LagsFirst(kinds);
    OrderCounts(kinds);
    KindCounts(kinds);
    RankOf(kinds, v);
    var bs := Blocks(PBSPBFBF);
    assert bs[0] == Block(Pred, -1) && bs[1] == Block(Both, -1) && bs[2] == Block(Stat, 0) && bs[3] == Block(Pred, 0) &&
           bs[4] == Block(Both, 0) && bs[5] == Block(Forw, 0) && bs[6] == Block(Both, 1) && bs[7] == Block(Forw, 1);
  }

  lemma KindCounts(kinds: seq<Kind>)
    ensures |OfKind(kinds, Stat)| + |OfKind(kinds, Pred)| + |OfKind(kinds, Both)| + |OfKind(kinds, Forw)| == |kinds|
  {
    hide OfKind;
    OrderCounts(kinds);
  }

  /** The variables of a kind, as a set. */
  function Members(kinds: seq<Kind>, k: Kind): set<nat> {
    set v: nat | v < |kinds| && kinds[v] == k
  }

  lemma {:induction false} CountMembers(kinds: seq<Kind>, k: Kind)
    ensures |Members(kinds, k)| == |OfKind(kinds, k)|
    decreases |kinds|
  {
    hide Members;
    if |kinds| == 0 {
      NoMembers(k);
    } else {
      CountMembers(kinds[..|kinds| - 1], k);
      MembersMore(kinds, k);
    }
  }

  lemma NoMembers(k: Kind)
    ensures |Members([], k)| == |OfKind([], k)|
  {
    assert Members([], k) == {};
  }

  lemma MembersMore(kinds: seq<Kind>, k: Kind)
    requires |kinds| > 0
    ensures var n := |kinds| - 1; |Members(kinds, k)| == |Members(kinds[..n], k)| + if kinds[n] == k then 1 else 0
  {
    hide OfKind;
    var n := |kinds| - 1;
    assert Members(kinds, k) == Members(kinds[..n], k) + if kinds[n] == k then {n} else {};
    assert n !in Members(kinds[..n], k);
  }

  lemma CountBoth(kinds: seq<Kind>, j: Kind, k: Kind, vs: set<nat>)
    requires j != k && forall v: nat :: v in vs <==> v < |kinds| && (kinds[v] == j || kinds[v] == k)
    ensures |vs| == |OfKind(kinds, j)| + |OfKind(kinds, k)|
  {
    CountMembers(kinds, j);
    CountMembers(kinds, k);
    assert vs == Members(kinds, j) + Members(kinds, k);
    assert Members(kinds, j) !! Members(kinds, k);
  }

  /** The kind of a variable says at which leads it has atoms. */
  lemma KindSays(vars: set<Atom>, name: string, k: Kind)
    requires KindFits(vars, name, k)
    ensures k == Pred || k == Both <==> Atom(name, -1) in vars
    ensures k == Both || k == Forw <==> Atom(name, 1) in vars
  {
    var lag: int, lead: int :| Spans(AtomsNamed(vars, name), lag, lead) && KindOf(lag, lead) == Some(k);
    forall a: Atom | a in AtomsNamed(vars, name)
      ensures a == Atom(name, a.ll)
    {
    }
    if Atom(name, -1) in vars { assert Atom(name, -1) in AtomsNamed(vars, name); }
    if Atom(name, 1) in vars { assert Atom(name, 1) in AtomsNamed(vars, name); }
  }

  /** Earlier kinds come first, and within a kind earlier variables. */
  lemma PlacesInOrder(kinds: seq<Kind>, v: nat, w: nat)
    requires v < |kinds| && w < |kinds| && v != w
    ensures PlaceOf(kinds, v) < PlaceOf(kinds, w) <==> KindNumber(kinds[v]) < KindNumber(kinds[w]) || (kinds[v] == kinds[w] && v < w)
  {
    hide OfKind, Rank;
    RankOf(kinds, v);
    RankOf(kinds, w);
  }

  function KindNumber(k: Kind): nat {
    match k
    case Stat => 0
    case Pred => 1
    case Both => 2
    case Forw => 3
  }
}
