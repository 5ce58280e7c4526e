/** Following the labels forward: the tiling that the second half of
    `optimize_rewrite` compiles, and its validity. */
module Extraction {
  import opened Basics
  import opened SuperTables
  import opened Tilings

  /** The label that the forward pass is about to follow exists.  `noTrans` is
      the flag telling it to skip the transition. */
  ghost predicate Usable(tab: Tables, origs: seq<PrimNum>, k: nat, before: bool, noTrans: bool)
  {
    && k < tab.maxStates
    && var ls := Plain(tab, origs);
    if noTrans then ls.inst[k].cost != INF_COST
    else ls.trans[k].cost != INF_COST && !ls.trans[k].noTransition && (before || ls.trans[k].relocatable)
  }

  /** The label that the forward pass is about to follow. */
  function LabelCost(tab: Tables, origs: seq<PrimNum>, k: nat, noTrans: bool): int
    requires k < tab.maxStates
  {
    if noTrans then Plain(tab, origs).inst[k].cost else Plain(tab, origs).trans[k].cost
  }

  function FirstMove(tab: Tables, origs: seq<PrimNum>, k: nat, noTrans: bool): Option<PrimNum>
    requires k < tab.maxStates
  {
    if noTrans then None else Some(Plain(tab, origs).trans[k].inst)
  }

  function Entered(tab: Tables, k: nat, t: Option<PrimNum>): nat {
    match t
    case None => k
    case Some(p) => if p < |tab.prims| then tab.prims[p].stateOut else k
  }

  lemma {:induction false} MoveUsable(tab: Tables, origs: seq<PrimNum>, k: nat, before: bool, noTrans: bool)
    requires Usable(tab, origs, k, before, noTrans)
    ensures var t := FirstMove(tab, origs, k, noTrans); var mid := Entered(tab, k, t);
            && mid < tab.maxStates
            && Moves(tab, k, t, mid)
            && Plain(tab, origs).inst[mid].cost != INF_COST
            && (t.Some? ==> before || Plain(tab, origs).inst[mid].relocatable)
            && LabelCost(tab, origs, k, noTrans) == MoveCost(tab, t) + Plain(tab, origs).inst[mid].cost
  {
    TransLabel(tab, origs, k);
  }

  /** After a tile the next label exists, so none of the assertions in the
      forward pass can fail. */
  lemma {:induction false} TileUsable(tab: Tables, origs: seq<PrimNum>, mid: nat)
    requires origs != [] && mid < tab.maxStates
    requires Plain(tab, origs).inst[mid].cost != INF_COST
    ensures var w := Plain(tab, origs).inst[mid];
            && Implements(tab, origs, w.inst) && tab.PrimOk(w.inst)
            && var p := tab.prims[w.inst];
            && p.stateIn == mid
            && w.relocatable == p.relocatable
            && var behind := origs[p.length..];
            && Usable(tab, behind, p.stateOut, p.relocatable, w.noTransition)
            && w.cost == p.cost + LabelCost(tab, behind, p.stateOut, w.noTransition)
  {
    InstLabel(tab, origs, mid);
    var p := tab.prims[Plain(tab, origs).inst[mid].inst];
    TransLabel(tab, origs[p.length..], p.stateOut);
  }

  /** The tiling that results from following the labels. */
  function Extract(tab: Tables, origs: seq<PrimNum>, k: nat, before: bool, noTrans: bool): Tiling
    requires Usable(tab, origs, k, before, noTrans)
    decreases |origs|, 1
  {
    ExtractHere(tab, origs, k, before, noTrans)
  }

  function ExtractHere(tab: Tables, origs: seq<PrimNum>, k: nat, before: bool, noTrans: bool): Tiling
    requires Usable(tab, origs, k, before, noTrans)
    decreases |origs|, 0
  {
    MoveUsable(tab, origs, k, before, noTrans);
    var t := FirstMove(tab, origs, k, noTrans);
    var mid := Entered(tab, k, t);
    if origs == [] then End(t)
    else
      TileUsable(tab, origs, mid);
      var w := Plain(tab, origs).inst[mid];
      var p := tab.prims[w.inst];
      Tile(t, w.inst, Extract(tab, origs[p.length..], p.stateOut, p.relocatable, w.noTransition))
  }

  ghost predicate Follows(
    tab: Tables, origs: seq<PrimNum>, k: nat, before: bool, t: Option<PrimNum>, cost: int, T: Tiling) {
    Valid(tab, origs, k, before, T) && T.t == t && Cost(tab, T) == cost
  }

  lemma {:induction false} TileFollows(
    tab: Tables, origs: seq<PrimNum>, k: nat, before: bool, t: Option<PrimNum>, s: PrimNum, cost: int, rest: Tiling)
    requires Implements(tab, origs, s) && Moves(tab, k, t, tab.prims[s].stateIn)
    requires t.Some? ==> before || tab.prims[s].relocatable
    requires var p := tab.prims[s]; Follows(tab, origs[p.length..], p.stateOut, p.relocatable, rest.t, cost, rest)
    ensures Follows(tab, origs, k, before, t, MoveCost(tab, t) + tab.prims[s].cost + cost, Tile(t, s, rest))
  {
  }

  /** For any mix of relocatable and other primitives, following the labels
      yields a valid tiling whose cost is the label. */
  lemma {:induction false} ExtractSound(tab: Tables, origs: seq<PrimNum>, k: nat, before: bool, noTrans: bool)
    requires Usable(tab, origs, k, before, noTrans)
    ensures Follows(tab, origs, k, before, FirstMove(tab, origs, k, noTrans), LabelCost(tab, origs, k, noTrans),
                    Extract(tab, origs, k, before, noTrans))
    decreases |origs|
  {
    assert Extract(tab, origs, k, before, noTrans) == ExtractHere(tab, origs, k, before, noTrans);
    MoveUsable(tab, origs, k, before, noTrans);
    PlainEmpty(tab);
    var t := FirstMove(tab, origs, k, noTrans);
    var mid := Entered(tab, k, t);
    if origs != [] {
      TileUsable(tab, origs, mid);
      var w := Plain(tab, origs).inst[mid];
      var p := tab.prims[w.inst];
      var behind := origs[p.length..];
      ExtractSound(tab, behind, p.stateOut, p.relocatable, w.noTransition);
      TileFollows(tab, origs, k, before, t, w.inst, LabelCost(tab, behind, p.stateOut, w.noTransition),
                  Extract(tab, behind, p.stateOut, p.relocatable, w.noTransition));
    }
  }

  /** `no_transition` as initialised in front of the forward pass. */
  function StartsWithout(tab: Tables, origs: seq<PrimNum>): bool
  {
    var w := Plain(tab, origs).trans[CANONICAL_STATE];
    !w.relocatable || w.noTransition
  }

  lemma {:induction false} StartUsable(tab: Tables, origs: seq<PrimNum>)
    requires tab.Compilable(origs)
    ensures Usable(tab, origs, CANONICAL_STATE, false, StartsWithout(tab, origs))
  {
    CanonicalFinite(tab, origs);
    TransLabel(tab, origs, CANONICAL_STATE);
    LabelsBounded(tab, origs);
  }

  /** The tiling that `optimize_rewrite` compiles for a block. */
  function BlockTiling(tab: Tables, origs: seq<PrimNum>): Tiling
    requires tab.Compilable(origs)
  {
    StartUsable(tab, origs);
    Extract(tab, origs, CANONICAL_STATE, false, StartsWithout(tab, origs))
  }

  lemma {:induction false} BlockTilingValid(tab: Tables, origs: seq<PrimNum>)
    requires tab.Compilable(origs)
    ensures Valid(tab, origs, CANONICAL_STATE, false, BlockTiling(tab, origs))
  {
    StartUsable(tab, origs);
    ExtractSound(tab, origs, CANONICAL_STATE, false, StartsWithout(tab, origs));
  }
}
