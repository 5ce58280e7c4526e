/** The automaton with longer implementations: even without merging states it
    chooses dearer code, because labels of different positions are normalised
    one by one. */
module Unmerged {
  import opened Basics
  import opened SuperTables
  import opened Tilings
  import opened Extraction
  import opened Emission
  import opened Normal
  import opened Automaton

  /** The labels of a block when no states are merged: each entry is normalised
      before the next one is computed. */
  function Renormalized(tab: Tables, origs: seq<PrimNum>): (r: seq<Labels>)
    ensures |r| == |origs| + 1 && Shaped(tab, r)
  {
    if origs == [] then [TermLabels(tab)]
    else
      var rest := Renormalized(tab, origs[1..]);
      var ls := Normalized(LabelsOf(tab, origs, rest));
      ConsShaped(tab, ls, rest);
      [ls] + rest
  }

  lemma {:induction false} RenormalizedSuffix(tab: Tables, origs: seq<PrimNum>, i: nat)
    requires i <= |origs|
    ensures Renormalized(tab, origs)[i..] == Renormalized(tab, origs[i..])
    decreases i
  {
    if i == 0 {
      assert origs[0..] == origs && Renormalized(tab, origs)[0..] == Renormalized(tab, origs);
    } else {
      RenormalizedSuffix(tab, origs[1..], i - 1);
      assert origs[1..][i-1..] == origs[i..];
      assert Renormalized(tab, origs)[1..] == Renormalized(tab, origs[1..]);
      assert Renormalized(tab, origs)[i..] == Renormalized(tab, origs)[1..][i-1..];
    }
  }

  lemma {:induction false} RenormalizedStep(tab: Tables, origs: seq<PrimNum>, ls: seq<Labels>, i: nat)
    requires i < |origs| && ls == Renormalized(tab, origs)
    ensures Shaped(tab, ls[i+1..]) && ls[i] == Normalized(LabelsOf(tab, origs[i..], ls[i+1..]))
  {
    RenormalizedSuffix(tab, origs, i);
    RenormalizedSuffix(tab, origs, i + 1);
    Suffix(origs, i, 1);
    assert ls[i] == ls[i..][0];
  }

  lemma {:induction false} RenormalizedLast(tab: Tables, origs: seq<PrimNum>)
    ensures Renormalized(tab, origs)[|origs|] == TermLabels(tab)
  {
    RenormalizedSuffix(tab, origs, |origs|);
    assert origs[|origs|..] == [];
    assert Renormalized(tab, origs)[|origs|] == Renormalized(tab, origs)[|origs|..][0];
  }

  /** Positions `i` and up have been labelled with `ls`. */
  ghost predicate HasLabels(ts: seq<TpaState>, ls: seq<Labels>, i: nat)
    reads ts
  {
    |ts| == |ls| && forall m | i <= m < |ls| :: ts[m].Contents() == ls[m]
  }

  /** The labeller with the automaton on, on its first block, where no entry of
      `tpa_table` can be found, and with `tpa_noequiv`. */
  method LabelFirst(sel: Selector, origs: seq<PrimNum>) returns (ts: seq<TpaState>)
    requires sel.StatesOk()
    ensures HasLabels(ts, Renormalized(sel.tab, origs), 0)
  {
    PlainEmpty(sel.tab);
    RenormalizedLast(sel.tab, origs);
    ghost var ls := Renormalized(sel.tab, origs);
    var term := sel.termstate;
    ts := seq(|origs| + 1, _ => term);
    var i := |origs|;
    while i > 0
      invariant 0 <= i <= |origs| && HasLabels(ts, ls, i)
    {
      i := i - 1;
      ts := LabelOne(sel, origs, i, ts, ls);
    }
  }

  method LabelOne(sel: Selector, origs: seq<PrimNum>, i: nat, ts: seq<TpaState>, ghost ls: seq<Labels>)
    returns (ts': seq<TpaState>)
    requires i < |origs| && ls == Renormalized(sel.tab, origs) && HasLabels(ts, ls, i + 1)
    ensures HasLabels(ts', ls, i)
  {
    RenormalizedStep(sel.tab, origs, ls, i);
    var t := sel.ComputeState(origs, i, ts, ls[i+1..]);
    t.Normalize();
    ts' := ts[i := t];
  }

  // ----- following any labels -----

  /** The tiling that the forward pass compiles for labels `ls` from position `i` on. */
  function Led(tab: Tables, ls: seq<Labels>, i: nat, k: nat, noTrans: bool): Tiling
    requires Shaped(tab, ls)
    decreases |ls| - i, 1
  {
    if i >= |ls| || k >= tab.maxStates then End(None)
    else
      var t := if noTrans then None else Some(ls[i].trans[k].inst);
      var mid := Entered(tab, k, t);
      if i == |ls| - 1 || mid >= tab.maxStates then End(t) else LedTile(tab, ls, i, t, ls[i].inst[mid])
  }

  function LedTile(tab: Tables, ls: seq<Labels>, i: nat, t: Option<PrimNum>, w: Waypoint): Tiling
    requires Shaped(tab, ls)
    decreases |ls| - i, 0
  {
    if i >= |ls| || w.inst >= |tab.prims| || tab.prims[w.inst].length == 0 then End(t)
    else
      var p := tab.prims[w.inst];
      Tile(t, w.inst, Led(tab, ls, i + p.length, p.stateOut, w.noTransition))
  }

  /** From the initial state, as `optimize_rewrite` starts it. */
  function LedBlock(tab: Tables, ls: seq<Labels>): Tiling
    requires Shaped(tab, ls) && ls != []
  {
    var w := ls[0].trans[CANONICAL_STATE];
    Led(tab, ls, 0, CANONICAL_STATE, !w.relocatable || w.noTransition)
  }

  /** The labels of `block` are the plain ones. */
  ghost predicate PlainFrom(tab: Tables, ls: seq<Labels>, i: nat, block: seq<PrimNum>) {
    && Shaped(tab, ls) && |ls| == i + |block| + 1
    && forall j: nat | j <= |block| :: ls[i + j] == Plain(tab, block[j..])
  }

  lemma {:induction false} PlainBehind(tab: Tables, ls: seq<Labels>, i: nat, block: seq<PrimNum>, n: nat)
    requires PlainFrom(tab, ls, i, block) && n <= |block|
    ensures PlainFrom(tab, ls, i + n, block[n..]) && ls[i] == Plain(tab, block)
  {
    assert block[0..] == block && ls[i + 0] == Plain(tab, block[0..]);
    forall j: nat | j <= |block| - n ensures ls[i + n + j] == Plain(tab, block[n..][j..]) {
      Suffix(block, n, j);
      assert ls[i + (n + j)] == Plain(tab, block[n + j..]);
    }
  }

  /** Along the plain labels that is the tiling of the block. */
  lemma {:induction false} LedPlain(
    tab: Tables, ls: seq<Labels>, i: nat, block: seq<PrimNum>, k: nat, before: bool, noTrans: bool)
    requires PlainFrom(tab, ls, i, block) && Usable(tab, block, k, before, noTrans)
    ensures Led(tab, ls, i, k, noTrans) == Extract(tab, block, k, before, noTrans)
    decreases |block|, 1
  {
    PlainBehind(tab, ls, i, block, 0);
    MoveUsable(tab, block, k, before, noTrans);
    var t := FirstMove(tab, block, k, noTrans);
    var mid := Entered(tab, k, t);
    assert Extract(tab, block, k, before, noTrans) == ExtractHere(tab, block, k, before, noTrans);
    if block != [] {
      TileUsable(tab, block, mid);
      LedTilePlain(tab, ls, i, block, t, ls[i].inst[mid]);
    }
  }

  lemma {:induction false} LedTilePlain(
    tab: Tables, ls: seq<Labels>, i: nat, block: seq<PrimNum>, t: Option<PrimNum>, w: Waypoint)
    requires PlainFrom(tab, ls, i, block) && Implements(tab, block, w.inst)
    requires var p := tab.prims[w.inst];
             p.length > 0 && Usable(tab, block[p.length..], p.stateOut, p.relocatable, w.noTransition)
    ensures var p := tab.prims[w.inst];
            LedTile(tab, ls, i, t, w)
            == Tile(t, w.inst, Extract(tab, block[p.length..], p.stateOut, p.relocatable, w.noTransition))
    decreases |block|, 0
  {
    var p := tab.prims[w.inst];
    PlainBehind(tab, ls, i, block, p.length);
    LedPlain(tab, ls, i + p.length, block[p.length..], p.stateOut, p.relocatable, w.noTransition);
  }

  lemma {:induction false} LedBlockPlain(tab: Tables, origs: seq<PrimNum>)
    requires tab.Compilable(origs)
    ensures LedBlock(tab, Labelling(tab, origs)) == BlockTiling(tab, origs)
  {
    StartUsable(tab, origs);
    forall j: nat | j <= |origs|
      ensures Labelling(tab, origs)[0 + j] == Plain(tab, origs[j..])
    {
      LabellingSuffix(tab, origs, j);
    }
    PlainBehind(tab, Labelling(tab, origs), 0, origs, 0);
    LedPlain(tab, Labelling(tab, origs), 0, origs, CANONICAL_STATE, false, StartsWithout(tab, origs));
  }

  // ----- a pair of primitives -----

  const ONE := Prim(0, 0, 1, 5, true)
  const TWO := Prim(0, 0, 2, 8, true)

  /** One primitive of cost 5, and one implementation of two of them, of cost 8. */
  const PAIR_DATA := TableData([ONE, TWO], map[[0] := [0], [0, 0] := [1]], [], 1, 2)

  ghost predicate IsPair(tab: Tables) {
    && |tab.prims| == 2 && tab.prims[0] == ONE && tab.prims[1] == TWO
    && tab.transitions == [] && tab.maxStates == 1 && tab.maxSuper == 2
    && tab.Supers([0]) == [0] && tab.Supers([0, 0]) == [1]
  }

  lemma {:induction false} PairTable()
    ensures PAIR_DATA.WellFormed() && IsPair(PAIR_DATA)
  {
    assert [0] in PAIR_DATA.supers && [0, 0] in PAIR_DATA.supers;
  }

  /** A label that has no transition in front of it. */
  function Alone(cost: int, inst: PrimNum): Waypoint {
    Waypoint(cost, inst, true, true)
  }

  /** Labels of one state, in front of which there is no transition. */
  ghost predicate AreAlone(ls: Labels, w: Waypoint) {
    ls.inst == [w] && ls.trans == [w.(noTransition := true)]
  }

  lemma {:induction false} PairTrans(tab: Tables, inst: seq<Waypoint>)
    requires IsPair(tab) && |inst| == 1
    ensures TransOf(tab, inst) == [inst[0].(noTransition := true)]
  {
    FoldStep(tab, WithoutTransition(inst), TransCandidates(tab, tab.transitions, inst));
  }

  lemma {:induction false} PairRelax(tab: Tables, w: Waypoint, s: PrimNum, behind: Labels, v: Waypoint, p: Prim)
    requires IsPair(tab) && s < 2 && AreAlone(behind, v) && p == tab.prims[s] && v.cost != INF_COST && tab.PrimOk(s)
    ensures Relax(tab, [w], SuperCandidate(tab, s, behind))
            == [if v.cost + p.cost <= w.cost then Alone(v.cost + p.cost, s) else w]
  {
    assert SuperCandidate(tab, s, behind) == Candidate(s, v.(noTransition := true), true, true);
  }

  lemma {:induction false} PairFirst(tab: Tables, rest: seq<Labels>, v: Waypoint)
    requires IsPair(tab) && 0 < |rest| <= 2 && Shaped(tab, rest) && AreAlone(rest[0], v) && 0 <= v.cost <= 5
    ensures Applicable(tab, [0], |rest|) && InstAfter(tab, [0], rest) == [Alone(v.cost + 5, 0)]
  {
    assert tab.PrimOk(0);
    InstAfterNone(tab, rest);
    InstAfterStep(tab, [], 0, rest);
    assert [] + [0] == [0];
    assert Unlabelled(tab) == [Waypoint(INF_COST, 0, false, false)];
    PairRelax(tab, Waypoint(INF_COST, 0, false, false), 0, rest[0], v, ONE);
  }

  /** The labels in front of the last primitive. */
  lemma {:induction false} PairOne(tab: Tables, rest: seq<Labels>, v: Waypoint)
    requires IsPair(tab) && |rest| == 1 && Shaped(tab, rest) && AreAlone(rest[0], v) && v.cost == 0
    ensures AreAlone(LabelsOf(tab, [0], rest), Alone(5, 0))
  {
    assert [0][..1] == [0];
    TilesStep(tab, [0], 0);
    TilesStep(tab, [0], 1);
    assert Tiles(tab, [0], 1) == [0];
    PairFirst(tab, rest, v);
    PairTrans(tab, InstOf(tab, [0], rest));
  }

  lemma {:induction false} PairTiles(tab: Tables)
    requires IsPair(tab)
    ensures Tiles(tab, [0, 0], 2) == [0, 1]
  {
    assert [0, 0][..1] == [0] && [0, 0][..2] == [0, 0];
    TilesStep(tab, [0, 0], 0);
    TilesStep(tab, [0, 0], 1);
    TilesStep(tab, [0, 0], 2);
  }

  /** The labels in front of both, for normalised and for plain labels behind. */
  lemma {:induction false} PairTwo(tab: Tables, rest: seq<Labels>, c: int, v: Waypoint)
    requires IsPair(tab) && |rest| == 2 && Shaped(tab, rest) && (c == 0 || c == 5)
    requires AreAlone(rest[0], Alone(c, 0)) && AreAlone(rest[1], v) && v.cost == 0
    ensures AreAlone(LabelsOf(tab, [0, 0], rest), if c == 0 then Alone(5, 0) else Alone(8, 1))
  {
    assert tab.PrimOk(1);
    PairTiles(tab);
    PairFirst(tab, rest, Alone(c, 0));
    InstAfterStep(tab, [0], 1, rest);
    assert [0] + [1] == [0, 1];
    PairRelax(tab, Alone(c + 5, 0), 1, rest[1], v, TWO);
    PairTrans(tab, InstOf(tab, [0, 0], rest));
  }

  lemma {:induction false} PairEnd(tab: Tables)
    requires IsPair(tab)
    ensures AreAlone(TermLabels(tab), Waypoint(0, 0, false, false))
  {
    PairTrans(tab, TermLabels(tab).inst);
  }

  /** The labels of the pair, one of cost `c` in front of it. */
  ghost predicate PairLabels(ls: seq<Labels>, c: int, first: PrimNum, second: int) {
    |ls| == 3 && AreAlone(ls[0], Alone(c, first)) && AreAlone(ls[1], Alone(second, 0))
  }

  lemma {:induction false} PairPlain(tab: Tables)
    requires IsPair(tab)
    ensures PairLabels(Labelling(tab, [0, 0]), 8, 1, 5)
  {
    assert [0, 0][1..] == [0] && [0][1..] == [];
    var e := Waypoint(0, 0, false, false);
    PairEnd(tab);
    PlainEmpty(tab);
    PairOne(tab, Labelling(tab, []), e);
    LabellingTail(tab, [0]);
    LabellingTail(tab, [0, 0]);
    PairTwo(tab, Labelling(tab, [0]), 5, e);
  }

  lemma {:induction false} NormalizedAlone(ls: Labels, w: Waypoint)
    requires AreAlone(ls, w) && 0 <= w.cost < INF_COST
    ensures AreAlone(Normalized(ls), w.(cost := 0))
  {
  }

  lemma {:induction false} PairRenormalized(tab: Tables)
    requires IsPair(tab)
    ensures PairLabels(Renormalized(tab, [0, 0]), 0, 0, 0)
  {
    assert [0, 0][1..] == [0] && [0][1..] == [];
    var e := Waypoint(0, 0, false, false);
    PairEnd(tab);
    var one := Renormalized(tab, []);
    PairOne(tab, one, e);
    NormalizedAlone(LabelsOf(tab, [0], one), Alone(5, 0));
    var two := Renormalized(tab, [0]);
    PairTwo(tab, two, 0, e);
    NormalizedAlone(LabelsOf(tab, [0, 0], two), Alone(5, 0));
  }

  lemma {:induction false} PairLed(tab: Tables, ls: seq<Labels>, c: int, first: PrimNum, second: int)
    requires IsPair(tab) && Shaped(tab, ls) && PairLabels(ls, c, first, second) && first < 2
    ensures LedBlock(tab, ls) == if first == 1 then Tile(None, 1, End(None))
            else Tile(None, 0, Tile(None, 0, End(None)))
  {
    assert Led(tab, ls, 2, 0, true) == End(None);
    var w := Alone(c, first);
    if first == 0 {
      assert LedTile(tab, ls, 1, None, Alone(second, 0)) == Tile(None, 0, End(None));
      assert Led(tab, ls, 1, 0, true) == Tile(None, 0, End(None));
    }
    assert Led(tab, ls, 0, 0, true) == LedTile(tab, ls, 0, None, w);
    assert LedTile(tab, ls, 0, None, w) == Tile(None, first, Led(tab, ls, tab.prims[first].length, 0, true));
  }

  /** For two primitives in a row the automaton without merging emits two single
      implementations of cost 10, where the plain labels lead to the pair, of
      cost 8.  So the automaton must be off, even if states are never merged. */
  lemma {:induction false} AutomatonNeedsSingles(tab: Tables)
    requires tab == PAIR_DATA
    ensures !tab.SingleOnly() && tab.Compilable([0, 0])
    ensures var T := LedBlock(tab, Renormalized(tab, [0, 0]));
            Emitted(T) == [Instruction(0), Instruction(0)] && Cost(tab, T) == 10
    ensures Emitted(BlockTiling(tab, [0, 0])) == [Instruction(1)] && Cost(tab, BlockTiling(tab, [0, 0])) == 8
  {
    PairTable();
    PairCompilable(tab);
    PairRenormalized(tab);
    PairLed(tab, Renormalized(tab, [0, 0]), 0, 0, 0);
    PairPlain(tab);
    PairLed(tab, Labelling(tab, [0, 0]), 8, 1, 5);
    LedBlockPlain(tab, [0, 0]);
    PairEmitted(tab);
  }

  lemma {:induction false} PairCompilable(tab: Tables)
    requires tab == PAIR_DATA
    ensures !tab.SingleOnly() && tab.Compilable([0, 0])
  {
    assert [0, 0] in tab.supers && tab.supers[[0, 0]] != [];
    assert 0 in tab.Supers([0]) && tab.HasCanonical(0);
  }

  lemma {:induction false} PairEmitted(tab: Tables)
    requires IsPair(tab)
    ensures var T := Tile(None, 0, Tile(None, 0, End(None)));
            Emitted(T) == [Instruction(0), Instruction(0)] && Cost(tab, T) == 10
    ensures var T := Tile(None, 1, End(None)); Emitted(T) == [Instruction(1)] && Cost(tab, T) == 8
  {
    var e := End(None);
    var t := Tile(None, 0, e);
    assert Emitted(e) == EmittedHere(e) == [];
    assert Emitted(t) == EmittedHere(t) == [] + [Instruction(0)] + [];
    assert Emitted(Tile(None, 0, t)) == EmittedHere(Tile(None, 0, t)) == [] + [Instruction(0)] + Emitted(t);
    assert Emitted(Tile(None, 1, e)) == EmittedHere(Tile(None, 1, e)) == [] + [Instruction(1)] + [];
    assert Cost(tab, t) == 5;
  }
}
