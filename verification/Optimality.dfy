/** When the labels are minimal, for any mix of relocatable and other code. */
module Optimality {
  import opened Basics
  import opened SuperTables
  import opened Tilings
  import opened Extraction

  /** Does the forward pass skip the transition, given whether the code in front
      is relocatable? */
  function SkipsMove(tab: Tables, origs: seq<PrimNum>, k: nat, before: bool): bool
    requires k < tab.maxStates
  {
    var w := Plain(tab, origs).trans[k];
    w.noTransition || !(before || w.relocatable)
  }

  /** The label that is followed. */
  function Followed(tab: Tables, origs: seq<PrimNum>, k: nat, before: bool): int
    requires k < tab.maxStates
  {
    var ls := Plain(tab, origs);
    if before || ls.trans[k].relocatable then ls.trans[k].cost else ls.inst[k].cost
  }

  lemma {:induction false} FollowedIs(tab: Tables, origs: seq<PrimNum>, k: nat, before: bool)
    requires k < tab.maxStates && |origs| <= MAX_BB
    ensures var skip := SkipsMove(tab, origs, k, before);
            && Followed(tab, origs, k, before) == LabelCost(tab, origs, k, skip)
            && (Followed(tab, origs, k, before) != INF_COST ==> Usable(tab, origs, k, before, skip))
    ensures Plain(tab, origs).trans[k].cost <= Followed(tab, origs, k, before) <= INF_COST
  {
    TransLabel(tab, origs, k);
    LabelsBounded(tab, origs);
  }

  // ----- what is lost -----

  /** Transition `t` from state `k` and relocatable code `r` behind it, which is
      allowed behind code of either kind. */
  ghost predicate Detour(tab: Tables, origs: seq<PrimNum>, k: nat, t: PrimNum, r: PrimNum) {
    && t in tab.transitions && tab.PrimOk(t) && tab.prims[t].stateIn == k
    && Implements(tab, origs, r) && tab.PrimOk(r) && tab.prims[r].relocatable
    && tab.prims[r].stateIn == tab.prims[t].stateOut
    && Followed(tab, origs[tab.prims[r].length..], tab.prims[r].stateOut, true) != INF_COST
  }

  ghost function DetourCost(tab: Tables, origs: seq<PrimNum>, k: nat, t: PrimNum, r: PrimNum): int
    requires Detour(tab, origs, k, t, r)
  {
    tab.prims[t].cost + tab.prims[r].cost + Followed(tab, origs[tab.prims[r].length..], tab.prims[r].stateOut, true)
  }

  /** Where the transition label is given up behind code that is not
      relocatable, going on without a transition is as cheap as any detour. */
  ghost predicate LosslessAt(tab: Tables, origs: seq<PrimNum>) {
    forall k: nat, t: PrimNum, r: PrimNum {:trigger Detour(tab, origs, k, t, r)} |
      k < tab.maxStates && !Plain(tab, origs).trans[k].relocatable && Detour(tab, origs, k, t, r) ::
      Plain(tab, origs).inst[k].cost <= DetourCost(tab, origs, k, t, r)
  }

  ghost predicate Lossless(tab: Tables, origs: seq<PrimNum>) {
    forall i | 0 <= i <= |origs| :: LosslessAt(tab, origs[i..])
  }

  lemma {:induction false} LosslessBehind(tab: Tables, origs: seq<PrimNum>, n: nat)
    requires Lossless(tab, origs) && n <= |origs|
    ensures Lossless(tab, origs[n..]) && LosslessAt(tab, origs)
  {
    assert origs[0..] == origs;
    forall i | 0 <= i <= |origs| - n ensures LosslessAt(tab, origs[n..][i..]) {
      assert origs[n..][i..] == origs[n + i..];
    }
  }

  // ----- lower bounds -----

  /** No tiling costs less than the label that is followed. */
  lemma {:induction false} LowerBound(tab: Tables, origs: seq<PrimNum>, k: nat, before: bool, T: Tiling)
    requires Lossless(tab, origs) && |origs| <= MAX_BB && k < tab.maxStates && Valid(tab, origs, k, before, T)
    ensures Followed(tab, origs, k, before) <= Cost(tab, T)
    ensures T.t.None? ==> Plain(tab, origs).inst[k].cost <= Cost(tab, T)
    decreases TileCount(T), 1
  {
    TransLabel(tab, origs, k);
    match T.t
    case None => LowerBoundInst(tab, origs, k, before, T);
    case Some(t) => LowerBoundMove(tab, origs, k, before, T, t);
  }

  /** The cost of a tiling without its first transition. */
  lemma {:induction false} WithoutFirst(tab: Tables, T: Tiling)
    ensures Cost(tab, T) == MoveCost(tab, T.t) + Cost(tab, T.(t := None))
  {
  }

  lemma {:induction false} LowerBoundMove(tab: Tables, origs: seq<PrimNum>, k: nat, before: bool, T: Tiling, t: PrimNum)
    requires Lossless(tab, origs) && |origs| <= MAX_BB && k < tab.maxStates && Valid(tab, origs, k, before, T)
    requires T.t == Some(t)
    ensures Followed(tab, origs, k, before) <= Cost(tab, T)
    decreases TileCount(T), 0, 1
  {
    assert tab.PrimOk(t);
    if before || Plain(tab, origs).trans[k].relocatable {
      var mid := tab.prims[t].stateOut;
      var T' := T.(t := None);
      assert Valid(tab, origs, mid, before, T');
      WithoutFirst(tab, T);
      LowerBoundInst(tab, origs, mid, before, T');
      TilingCostBound(tab, origs, mid, before, T');
      TransLabelBest(tab, origs, t);
    } else {
      var r := T.s;
      var behind := origs[tab.prims[r].length..];
      SuperLength(tab, origs[..tab.prims[r].length], r);
      LosslessBehind(tab, origs, tab.prims[r].length);
      LowerBound(tab, behind, tab.prims[r].stateOut, true, T.rest);
      TilingCostBound(tab, behind, tab.prims[r].stateOut, true, T.rest);
      assert Detour(tab, origs, k, t, r);
    }
  }

  lemma {:induction false} LowerBoundInst(tab: Tables, origs: seq<PrimNum>, k: nat, before: bool, T: Tiling)
    requires Lossless(tab, origs) && |origs| <= MAX_BB && k < tab.maxStates && Valid(tab, origs, k, before, T)
    requires T.t.None?
    ensures Plain(tab, origs).inst[k].cost <= Cost(tab, T)
    decreases TileCount(T), 0, 0
  {
    PlainEmpty(tab);
    if T.Tile? {
      var p := tab.prims[T.s];
      SuperLength(tab, origs[..p.length], T.s);
      LosslessBehind(tab, origs, p.length);
      InstLabelBest(tab, origs, T.s);
      LowerBound(tab, origs[p.length..], p.stateOut, p.relocatable, T.rest);
      TilingCostBound(tab, origs[p.length..], p.stateOut, p.relocatable, T.rest);
      BehindFollowed(tab, origs, T.s);
    }
  }

  lemma {:induction false} BehindFollowed(tab: Tables, origs: seq<PrimNum>, s: PrimNum)
    requires tab.PrimOk(s) && tab.prims[s].length <= |origs|
    ensures Behind(tab, origs, s).wo.cost ==
            Followed(tab, origs[tab.prims[s].length..], tab.prims[s].stateOut, tab.prims[s].relocatable)
  {
  }

  // ----- the labels are minimal -----

  /** `cost` is the minimum over all tilings, those that start with a tile if
      `noTrans`; INF_COST if there are none. */
  ghost predicate IsMinimum(tab: Tables, origs: seq<PrimNum>, k: nat, before: bool, noTrans: bool, cost: int) {
    && (forall T | Valid(tab, origs, k, before, T) && (noTrans ==> T.t.None?) :: cost <= Cost(tab, T) < INF_COST)
    && (cost != INF_COST ==>
      exists T :: Valid(tab, origs, k, before, T) && (noTrans ==> T.t.None?) && Cost(tab, T) == cost)
  }

  /** Whatever the mix, a finite label is the cost of some tiling. */
  lemma {:induction false} FollowedReached(tab: Tables, origs: seq<PrimNum>, k: nat, before: bool) returns (T: Tiling)
    requires k < tab.maxStates && |origs| <= MAX_BB && Followed(tab, origs, k, before) != INF_COST
    ensures Valid(tab, origs, k, before, T) && Cost(tab, T) == Followed(tab, origs, k, before)
  {
    FollowedIs(tab, origs, k, before);
    var skip := SkipsMove(tab, origs, k, before);
    ExtractSound(tab, origs, k, before, skip);
    T := Extract(tab, origs, k, before, skip);
  }

  /** In a lossless block every label is the minimum over all tilings of the
      rest of the block, and infinite exactly if there are none. */
  lemma {:induction false} LabelIsMinimum(tab: Tables, origs: seq<PrimNum>, k: nat, before: bool)
    requires Lossless(tab, origs) && |origs| <= MAX_BB && k < tab.maxStates
    ensures IsMinimum(tab, origs, k, before, false, Followed(tab, origs, k, before))
    ensures IsMinimum(tab, origs, k, before, true, Plain(tab, origs).inst[k].cost)
  {
    forall T | Valid(tab, origs, k, before, T) ensures Followed(tab, origs, k, before) <= Cost(tab, T) < INF_COST {
      LowerBound(tab, origs, k, before, T);
      TilingCostBound(tab, origs, k, before, T);
    }
    forall T | Valid(tab, origs, k, before, T) && T.t.None?
      ensures Plain(tab, origs).inst[k].cost <= Cost(tab, T) < INF_COST
    {
      LowerBound(tab, origs, k, before, T);
      TilingCostBound(tab, origs, k, before, T);
    }
    if Followed(tab, origs, k, before) != INF_COST {
      var T := FollowedReached(tab, origs, k, before);
    }
    if Plain(tab, origs).inst[k].cost != INF_COST {
      ExtractSound(tab, origs, k, before, true);
    }
  }

  /** All labels of a block, at every position. */
  ghost predicate AllMinimal(tab: Tables, origs: seq<PrimNum>) {
    forall i, k, before | 0 <= i <= |origs| && 0 <= k < tab.maxStates ::
      IsMinimum(tab, origs[i..], k, before, false, Followed(tab, origs[i..], k, before))
  }

  /** The labels of a block are minimal exactly if it is lossless. */
  lemma {:induction false} MinimalIffLossless(tab: Tables, origs: seq<PrimNum>)
    requires |origs| <= MAX_BB
    ensures AllMinimal(tab, origs) <==> Lossless(tab, origs)
  {
    if Lossless(tab, origs) {
      forall i, k, before | 0 <= i <= |origs| && 0 <= k < tab.maxStates
        ensures IsMinimum(tab, origs[i..], k, before, false, Followed(tab, origs[i..], k, before))
      {
        LosslessBehind(tab, origs, i);
        LabelIsMinimum(tab, origs[i..], k, before);
      }
    }
    if AllMinimal(tab, origs) {
      forall i | 0 <= i <= |origs| ensures LosslessAt(tab, origs[i..]) {
        forall k: nat | k < tab.maxStates
          ensures IsMinimum(tab, origs[i..], k, false, false, Followed(tab, origs[i..], k, false))
        {
        }
        MinimalIsLossless(tab, origs[i..]);
      }
    }
  }

  lemma {:induction false} MinimalIsLossless(tab: Tables, origs: seq<PrimNum>)
    requires |origs| <= MAX_BB
    requires forall k: nat | k < tab.maxStates :: IsMinimum(tab, origs, k, false, false, Followed(tab, origs, k, false))
    ensures LosslessAt(tab, origs)
  {
    forall k: nat, t: PrimNum, r: PrimNum {:trigger Detour(tab, origs, k, t, r)} |
      k < tab.maxStates && !Plain(tab, origs).trans[k].relocatable && Detour(tab, origs, k, t, r)
      ensures Plain(tab, origs).inst[k].cost <= DetourCost(tab, origs, k, t, r)
    {
      var T := DetourTiling(tab, origs, k, t, r);
      assert IsMinimum(tab, origs, k, false, false, Followed(tab, origs, k, false));
    }
  }

  lemma {:induction false} DetourTiling(
    tab: Tables, origs: seq<PrimNum>, k: nat, t: PrimNum, r: PrimNum)
    returns (T: Tiling)
    requires |origs| <= MAX_BB && Detour(tab, origs, k, t, r)
    ensures Valid(tab, origs, k, false, T) && Cost(tab, T) == DetourCost(tab, origs, k, t, r)
  {
    var rest := FollowedReached(tab, origs[tab.prims[r].length..], tab.prims[r].stateOut, true);
    T := Tile(Some(t), r, rest);
  }

  /** In a lossless block the compiled tiling is the cheapest one there is. */
  lemma {:induction false} BlockTilingOptimal(tab: Tables, origs: seq<PrimNum>, T: Tiling)
    requires Lossless(tab, origs) && tab.Compilable(origs) && Valid(tab, origs, CANONICAL_STATE, false, T)
    ensures Cost(tab, BlockTiling(tab, origs)) <= Cost(tab, T)
  {
    LowerBound(tab, origs, CANONICAL_STATE, false, T);
    StartUsable(tab, origs);
    FollowedIs(tab, origs, CANONICAL_STATE, false);
    ExtractSound(tab, origs, CANONICAL_STATE, false, StartsWithout(tab, origs));
  }

  // ----- blocks that are lossless -----

  /** All implementations of parts of the block are relocatable, or none is. */
  ghost predicate UniformBlock(tab: Tables, origs: seq<PrimNum>, relocatable: bool) {
    forall i, s: PrimNum | 0 <= i <= |origs| && Implements(tab, origs[i..], s) ::
      tab.prims[s].relocatable == relocatable
  }

  lemma {:induction false} UniformLossless(tab: Tables, origs: seq<PrimNum>, relocatable: bool)
    requires UniformBlock(tab, origs, relocatable) && |origs| <= MAX_BB
    ensures Lossless(tab, origs)
  {
    forall i | 0 <= i <= |origs| ensures LosslessAt(tab, origs[i..]) {
      var rest := origs[i..];
      forall k: nat, t: PrimNum, r: PrimNum {:trigger Detour(tab, rest, k, t, r)} |
        k < tab.maxStates && Detour(tab, rest, k, t, r)
        ensures Plain(tab, rest).trans[k].relocatable
      {
        DetourReached(tab, rest, k, t, r);
        UniformLabel(tab, origs, i, k);
      }
    }
  }

  lemma {:induction false} DetourReached(tab: Tables, origs: seq<PrimNum>, k: nat, t: PrimNum, r: PrimNum)
    requires k < tab.maxStates && |origs| <= MAX_BB && Detour(tab, origs, k, t, r)
    ensures Plain(tab, origs).trans[k].cost != INF_COST
  {
    var T := DetourTiling(tab, origs, k, t, r);
    TilingCostBound(tab, origs, k, false, T);
    LabelsBounded(tab, origs);
    BehindFollowed(tab, origs, r);
    InstLabelBest(tab, origs, r);
    TransLabelBest(tab, origs, t);
  }

  lemma {:induction false} UniformLabel(tab: Tables, origs: seq<PrimNum>, i: nat, k: nat)
    requires UniformBlock(tab, origs, true) && i < |origs| && k < tab.maxStates
    requires Plain(tab, origs[i..]).trans[k].cost != INF_COST
    ensures Plain(tab, origs[i..]).trans[k].relocatable
  {
    TransLabel(tab, origs[i..], k);
    var w := Plain(tab, origs[i..]).trans[k];
    var mid := if w.noTransition then k else tab.prims[w.inst].stateOut;
    InstLabel(tab, origs[i..], mid);
    assert Implements(tab, origs[i..], Plain(tab, origs[i..]).inst[mid].inst);
  }

  /** Without transitions there is nothing to give up. */
  lemma {:induction false} NoMovesLossless(tab: Tables, origs: seq<PrimNum>)
    requires tab.transitions == []
    ensures Lossless(tab, origs)
  {
  }
}
