/** A table with relocatable and other code for which selection is not optimal. */
module Limits {
  import opened Basics
  import opened SuperTables
  import opened Tilings
  import opened Extraction
  import opened Optimality
  import opened Normal

  // ----- relocatable and other code in one table -----

  /** Primitive 0 has one implementation, not relocatable; primitive 1 has
      three, from states 0, 1 and 2, of which only the last is relocatable. */
  const MIXED_DATA := TableData(
    [Prim(0, 0, 1, 1, false),
     Prim(0, 0, 1, 100, false), Prim(1, 0, 1, 1, false), Prim(2, 0, 1, 10, true),
     Prim(0, 1, 1, 1, true), Prim(0, 2, 1, 1, true)],
    map[[0] := [0], [1] := [1, 2, 3]],
    [4, 5], 3, 1)

  lemma {:induction false} MixedTable()
    ensures MIXED_DATA.Compilable([0, 1])
  {
    assert 0 in MIXED_DATA.Supers([0]) && 1 in MIXED_DATA.Supers([1]);
    assert [1] in MIXED_DATA.supers && 3 in MIXED_DATA.supers[[1]];
    assert [0] in MIXED_DATA.supers && 0 in MIXED_DATA.supers[[0]];
    assert MIXED_DATA.HasCanonical(0) && MIXED_DATA.HasCanonical(1);
  }

  lemma {:induction false} MixedEnd(tab: Tables)
    requires tab == MIXED_DATA
    ensures Plain(tab, []).inst[0].cost == 0
    ensures !Plain(tab, []).trans[0].relocatable
  {
    PlainEmpty(tab);
    TransLabel(tab, [], 0);
  }

  lemma {:induction false} MixedImplementations(tab: Tables, origs: seq<PrimNum>, s: PrimNum)
    requires tab == MIXED_DATA && (origs == [1] || origs == [0, 1])
    ensures Implements(tab, origs, s) <==> if origs == [1] then s in [1, 2, 3] else s == 0
  {
    assert [1][..1] == [1] && [0, 1][..1] == [0];
    if Implements(tab, origs, s) {
      SuperLength(tab, origs[..tab.prims[s].length], s);
    }
  }

  /** The cost of the implementation of primitive 1 for a state. */
  function LastCost(k: nat): nat {
    if k == 0 then 100 else if k == 1 then 1 else 10
  }

  lemma {:induction false} MixedLast(tab: Tables, k: nat)
    requires tab == MIXED_DATA && k < 3
    ensures var w := Plain(tab, [1]).inst[k];
            w.cost != INF_COST ==> w.inst == k + 1 && w.relocatable == (k == 2) && w.cost >= LastCost(k)
  {
    var w := Plain(tab, [1]).inst[k];
    if w.cost != INF_COST {
      InstLabel(tab, [1], k);
      MixedImplementations(tab, [1], w.inst);
      MixedBehind(tab, w.inst, k, w);
    }
  }

  lemma {:induction false} MixedBehind(tab: Tables, s: PrimNum, k: nat, w: Waypoint)
    requires tab == MIXED_DATA && s in [1, 2, 3] && ChosenFrom(tab, w, Behind(tab, [1], s), k)
    ensures s == k + 1 && w.relocatable == (s == 3) && w.cost >= LastCost(k)
  {
    assert tab.prims[s].stateIn == s - 1 && tab.prims[s].length == 1 && tab.prims[s].relocatable == (s == 3);
    assert [1][1..] == [];
    MixedEnd(tab);
    MixedFromEnd(tab, s);
  }

  lemma {:induction false} MixedFromEnd(tab: Tables, s: PrimNum)
    requires tab == MIXED_DATA && s in [1, 2, 3]
    ensures var c := SuperCandidate(tab, s, Plain(tab, []));
            c.relocatable == (s == 3) && (c.wo.cost == INF_COST || c.wo.cost >= 0)
  {
    LabelsBounded(tab, []);
    MixedEnd(tab);
  }

  lemma {:induction false} MixedCheapest(tab: Tables)
    requires tab == MIXED_DATA
    ensures Plain(tab, [1]).inst[1].cost <= 1
  {
    MixedEnd(tab);
    assert [1][1..] == [];
    MixedImplementations(tab, [1], 2);
    InstLabelBest(tab, [1], 2);
  }

  lemma {:induction false} MixedTransCheap(tab: Tables)
    requires tab == MIXED_DATA
    ensures Plain(tab, [1]).trans[0].cost <= 2
  {
    MixedCheapest(tab);
    TransLabelBest(tab, [1], 4);
  }

  lemma {:induction false} MixedMove(tab: Tables, t: PrimNum)
    requires tab == MIXED_DATA && t in tab.transitions
    ensures t < |tab.prims| && tab.prims[t].cost == 1 && 1 <= tab.prims[t].stateOut <= 2
  {
  }

  lemma {:induction false} MixedTrans(tab: Tables)
    requires tab == MIXED_DATA
    ensures !Plain(tab, [1]).trans[0].relocatable
  {
    var w := Plain(tab, [1]).trans[0];
    MixedTransCheap(tab);
    TransLabel(tab, [1], 0);
    if w.noTransition {
      MixedLast(tab, 0);
    } else {
      MixedMove(tab, w.inst);
      MixedLast(tab, tab.prims[w.inst].stateOut);
    }
  }

  lemma {:induction false} LabelKind(tab: Tables, origs: seq<PrimNum>, w: Waypoint, k: nat)
    requires origs != [] && Implements(tab, origs, w.inst) && tab.PrimOk(w.inst)
             && ChosenFrom(tab, w, Behind(tab, origs, w.inst), k)
    ensures w.relocatable == tab.prims[w.inst].relocatable
  {
  }

  lemma {:induction false} MixedFirstInst(tab: Tables, k: nat)
    requires tab == MIXED_DATA && k < 3
    ensures var w := Plain(tab, [0, 1]).inst[k];
            w.cost != INF_COST ==> w.inst == 0 && ChosenFrom(tab, w, Behind(tab, [0, 1], 0), k) && !w.relocatable
  {
    var w := Plain(tab, [0, 1]).inst[k];
    if w.cost != INF_COST {
      InstLabel(tab, [0, 1], k);
      MixedImplementations(tab, [0, 1], w.inst);
      LabelKind(tab, [0, 1], w, k);
    }
  }

  lemma {:induction false} MixedFirstBehind(tab: Tables)
    requires tab == MIXED_DATA
    ensures var c := Behind(tab, [0, 1], 0); c.wo.cost >= 100
  {
    assert [0, 1][1..] == [1];
    MixedTrans(tab);
    MixedLastCost(tab);
    MixedKept(tab, Plain(tab, [1]));
  }

  lemma {:induction false} MixedLastCost(tab: Tables)
    requires tab == MIXED_DATA
    ensures Plain(tab, [1]).inst[0].cost >= 100
  {
    MixedLast(tab, 0);
  }

  lemma {:induction false} MixedKept(tab: Tables, ls: Labels)
    requires tab == MIXED_DATA && |ls.inst| == |ls.trans| == 3 && !ls.trans[0].relocatable
    ensures tab.prims[0].length == 1 && tab.prims[1].cost == 100
    ensures SuperCandidate(tab, 0, ls).wo == ls.inst[0]
  {
  }

  lemma {:induction false} MixedFirst(tab: Tables)
    requires tab == MIXED_DATA && tab.Compilable([0, 1])
    ensures Plain(tab, [0, 1]).inst[0].cost >= 101
    ensures StartsWithout(tab, [0, 1])
  {
    CanonicalFinite(tab, [0, 1]);
    MixedFirstBehind(tab);
    TransLabel(tab, [0, 1], 0);
    var t := Plain(tab, [0, 1]).trans[0];
    MixedFirstInst(tab, 0);
    MixedFirstInst(tab, if t.noTransition then 0 else tab.prims[t.inst].stateOut);
  }

  lemma {:induction false} MixedBetter(tab: Tables)
    requires tab == MIXED_DATA
    ensures var T := Tile(None, 0, Tile(Some(5), 3, End(None)));
            Valid(tab, [0, 1], CANONICAL_STATE, false, T) && Cost(tab, T) == 12
  {
    MixedImplementations(tab, [0, 1], 0);
    MixedImplementations(tab, [1], 3);
    assert [0, 1][1..] == [1] && [1][1..] == [];
    var T := Tile(Some(5), 3, End(None));
    assert Valid(tab, [1], 0, false, T);
    assert tab.prims[0].length == 1;
    assert Valid(tab, [0, 1], CANONICAL_STATE, false, Tile(None, 0, T));
  }

  lemma {:induction false} MixedCost(tab: Tables)
    requires tab == MIXED_DATA && tab.Compilable([0, 1])
    ensures Cost(tab, BlockTiling(tab, [0, 1])) >= 101
  {
    MixedFirst(tab);
    StartUsable(tab, [0, 1]);
    ExtractSound(tab, [0, 1], CANONICAL_STATE, false, true);
  }

  /** The primitive in front of a cheap transition to non-relocatable code is
      itself not relocatable, so that transition is given up; a dearer one to
      relocatable code would be allowed, but has been forgotten. */
  lemma {:induction false} MixedNotOptimal(tab: Tables) returns (T: Tiling)
    requires tab == MIXED_DATA
    ensures tab.Compilable([0, 1]) && !Lossless(tab, [0, 1])
    ensures Valid(tab, [0, 1], CANONICAL_STATE, false, T) && Cost(tab, T) < Cost(tab, BlockTiling(tab, [0, 1]))
  {
    MixedTable();
    MixedCost(tab);
    MixedBetter(tab);
    T := Tile(None, 0, Tile(Some(5), 3, End(None)));
    if Lossless(tab, [0, 1]) {
      BlockTilingOptimal(tab, [0, 1], T);
      assert false;
    }
  }
}
