/** The Jacobian of the steady state, loaded by the positions of atoms. */
module DynareJacobians {
  import opened Wrappers
  import opened DynamicAtomsModule
  import opened VarOrderings

  /** The column that a position is loaded into; none past the atoms of the endogenous variables. */
  function LoadColumn(j: nat, nStat: nat, nPred: nat, nBoth: nat, nForw: nat): Option<nat> {
    var nyss, ny, nys := nBoth + nForw, nStat + nPred + nBoth + nForw, nPred + nBoth;
    if j < nyss then Some(j + nStat + nPred)
    else if j < nyss + ny then Some(j - nyss)
    else if j < nyss + ny + nys then Some(j - nyss - ny + nStat)
    else None
  }

  /** Every cell of a block is loaded into the place of its variable. */
  lemma ColumnOfBlock(kinds: seq<Kind>, b: nat, r: nat)
    requires b < 8 && r < |OfKind(kinds, Blocks(BFSPBFPB)[b].kind)|
    ensures LoadColumn(Offset(kinds, Blocks(BFSPBFPB)[..b]) + r, |OfKind(kinds, Stat)|, |OfKind(kinds, Pred)|, |OfKind(kinds, Both)|, |OfKind(kinds, Forw)|)
      == Some(Start(kinds, Blocks(BFSPBFPB)[b].kind) + r)
  {
    hide OfKind;
    LeadsFirst(kinds);
    var bs := Blocks(BFSPBFPB);
    assert bs[0].kind == Both && bs[1].kind == Forw && bs[2].kind == Stat && bs[3].kind == Pred &&
           bs[4].kind == Both && bs[5].kind == Forw && bs[6].kind == Pred && bs[7].kind == Both;
  }

  /** The two orders of the variables are inverse to each other, and the positions of their atoms are different and below the length. */
  lemma Layout(o: VarOrdering, ordering: OrdType)
    requires o.Ordered(ordering)
    ensures |o.y2outer| == |o.outer2y| == |o.varnames|
    ensures forall v: nat :: v < |o.varnames| ==> 0 <= o.outer2y[v] < |o.y2outer| && o.y2outer[o.outer2y[v]] == v
    ensures forall p: nat :: p < |o.y2outer| ==> o.y2outer[p] < |o.outer2y| && o.outer2y[o.y2outer[p]] == p
    ensures forall t: nat :: t in o.positions ==> o.positions[t] < o.Length()
    ensures forall t: nat, u: nat :: t in o.positions && u in o.positions && o.positions[t] == o.positions[u] ==> t == u
  {
    hide OfKind, Row, Column, Order, Rank, Start, Present;
    OrderPlaces(o.kinds);
    LeadsFirst(o.kinds);
    LagsFirst(o.kinds);
  }

  /** In the order with leads first, every atom is loaded into the column of its variable. */
  lemma LoadedByVariable(o: VarOrdering, v: nat, a: Atom)
    requires o.Ordered(BFSPBFPB) && IsVariable(o, v, a)
    ensures o.atoms.vars[a] in o.positions && 0 <= o.outer2y[v] < |o.varnames|
    ensures LoadColumn(o.positions[o.atoms.vars[a]], o.nStat, o.nPred, o.nBoth, o.nForw) == Some(o.outer2y[v])
  {
    hide OfKind, Row, Column, Order, Rank, Start, Present, Offset, LoadColumn;
    var b := PositionOf(o, BFSPBFPB, v, a);
    RankOf(o.kinds, v);
    ColumnOfBlock(o.kinds, b, Rank(o.kinds, v));
    OrderPlaces(o.kinds);
  }

  /** Only atoms of the variables have positions. */
  lemma AtomAt(o: VarOrdering, ordering: OrdType, t: nat) returns (v: nat, a: Atom)
    requires o.Ordered(ordering) && t in o.positions
    ensures IsVariable(o, v, a) && o.atoms.vars[a] == t
  {
    hide OfKind, Row, Column, Order, Rank, Start, Present, Offset, KindFits;
    var b, r := BlockAt(o.kinds, Blocks(ordering), o.positions[t]);
    RowAt(o.atoms.vars, o.varnames, o.kinds, Blocks(ordering), b, r);
    v := OfKind(o.kinds, Blocks(ordering)[b].kind)[r];
    a := Atom(o.varnames[v], Blocks(ordering)[b].ll);
  }

  class DynareJacobian {
    const endo: VarOrdering
    const exo: VarOrdering
    const data: array2<real>

    ghost predicate Valid()
      reads endo, exo, endo.atoms, exo.atoms
    {
      && endo.Ordered(BFSPBFPB) && exo.Ordered(BFSPBFPB)
      && data.Length0 == |endo.varnames| && data.Length1 == |endo.varnames|
    }

    constructor (en: VarOrdering, ex: VarOrdering)
      requires en.Ordered(BFSPBFPB) && ex.Ordered(BFSPBFPB)
      ensures Valid() && endo == en && exo == ex && fresh(data)
      ensures forall i, j :: 0 <= i < data.Length0 && 0 <= j < data.Length1 ==> data[i, j] == 0.0
    {
      hide VarOrdering.Ordered;
      endo, exo := en, ex;
      data := new real[|en.varnames|, |en.varnames|]((i, j) => 0.0);
    }

    /** The position of an atom, endogenous ones first. */
    function GetPosOfAll(t: nat): Option<nat>
      reads endo, exo
    {
      if t in endo.positions then Some(endo.positions[t])
      else if t in exo.positions then Some(endo.Length() + exo.positions[t])
      else None
    }

    /** Adds a derivative of equation i by the leaf t to the column of the leaf's variable, whatever its lead; derivatives by
        exogenous leaves are left out. Fails exactly when the leaf belongs to no variable. */
    method Load(i: nat, t: nat, res: real) returns (ok: bool)
      requires Valid() && i < data.Length0
      modifies data
      ensures ok <==> t in endo.positions || t in exo.positions
      ensures forall v: nat, a: Atom :: IsVariable(endo, v, a) && endo.atoms.vars[a] == t ==> Added(v, i, res)
      ensures t !in endo.positions ==> forall k, l :: 0 <= k < data.Length0 && 0 <= l < data.Length1 ==> data[k, l] == old(data[k, l])
    {
      hide VarOrdering.Ordered;
      ghost var v, a;
      Ends();
      if t in endo.positions {
        v, a := AtomAt(endo, BFSPBFPB, t);
        LoadedByVariable(endo, v, a);
      }
      var pos := GetPosOfAll(t);
      if pos == None {
        NotThere(t);
        return false;
      }
      var j := pos.value;
      var nyss, ny, nys := endo.nBoth + endo.nForw, endo.nStat + endo.nPred + endo.nBoth + endo.nForw, endo.nPred + endo.nBoth;
      if j < nyss {
        data[i, j + endo.nStat + endo.nPred] := data[i, j + endo.nStat + endo.nPred] + res;
      } else if j < nyss + ny {
        data[i, j - nyss] := data[i, j - nyss] + res;
      } else if j < nyss + ny + nys {
        data[i, j - nyss - ny + endo.nStat] := data[i, j - nyss - ny + endo.nStat] + res;
      }
      ok := true;
      forall w: nat, c: Atom | IsVariable(endo, w, c) && endo.atoms.vars[c] == t
        ensures Added(w, i, res)
      {
        LoadedByVariable(endo, w, c);
      }
    }

    /** The derivative has been added to the column of variable v and nothing else has changed. */
    twostate predicate Added(v: nat, i: nat, res: real)
      requires Valid() && i < data.Length0
      reads data, endo, exo, endo.atoms, exo.atoms
    {
      && v < |endo.outer2y| && 0 <= endo.outer2y[v] < data.Length1
      && forall k, l :: 0 <= k < data.Length0 && 0 <= l < data.Length1 ==>
           data[k, l] == old(data[k, l]) + (if k == i && l == endo.outer2y[v] then res else 0.0)
    }

    lemma Ends()
      requires Valid()
      ensures endo.nStat + endo.nPred + endo.nBoth + endo.nForw == |endo.varnames| && |endo.outer2y| == |endo.varnames|
      ensures forall t: nat :: t in endo.positions ==> endo.positions[t] < endo.Length()
    {
      hide OfKind, Row, Column, Rank, Start, Present, Offset;
      Layout(endo, BFSPBFPB);
      assert |endo.y2outer| == |OfKind(endo.kinds, Stat)| + |OfKind(endo.kinds, Pred)| + |OfKind(endo.kinds, Both)| + |OfKind(endo.kinds, Forw)|;
    }

    lemma NotThere(t: nat)
      requires Valid() && t !in endo.positions
      ensures forall v: nat, a: Atom :: IsVariable(endo, v, a) ==> endo.atoms.vars[a] != t
    {
      forall v: nat, a: Atom | IsVariable(endo, v, a)
        ensures endo.atoms.vars[a] != t
      {
        LoadedByVariable(endo, v, a);
      }
    }
  }
}
