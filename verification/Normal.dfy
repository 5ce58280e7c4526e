/** Normalised labels: what the tree-parsing automaton stores. */
module Normal {
  import opened Basics
  import opened SuperTables
  import opened Tilings

  function ShiftWaypoint(w: Waypoint, d: int): Waypoint {
    if w.cost == INF_COST then w else w.(cost := w.cost - d)
  }

  function Shift(ws: seq<Waypoint>, d: int): (r: seq<Waypoint>)
    ensures |r| == |ws|
    ensures forall k | 0 <= k < |ws| :: r[k] == ShiftWaypoint(ws[k], d)
  {
    seq(|ws|, k requires 0 <= k < |ws| => ShiftWaypoint(ws[k], d))
  }

  function ShiftLabels(ls: Labels, d: int): Labels {
    Labels(Shift(ls.inst, d), Shift(ls.trans, d))
  }

  /** `tpa_state_normalize`: the canonical state gets cost 0. */
  function Normalized(ls: Labels): Labels
    requires |ls.inst| > CANONICAL_STATE
  {
    ShiftLabels(ls, ls.inst[CANONICAL_STATE].cost)
  }

  ghost predicate LabelsShaped(tab: Tables, ls: Labels) {
    |ls.inst| == |ls.trans| == tab.maxStates
  }

  ghost predicate Small(ls: Labels) {
    Bounded(ls.inst, 2 * MAX_BB * MAX_PRIM_COST) && Bounded(ls.trans, (2 * MAX_BB + 1) * MAX_PRIM_COST)
  }

  lemma {:induction false} PlainSmall(tab: Tables, origs: seq<PrimNum>)
    requires |origs| <= MAX_BB
    ensures Small(Plain(tab, origs))
  {
    LabelsBounded(tab, origs);
    BoundedMono(Plain(tab, origs).inst, 2 * |origs| * MAX_PRIM_COST, 2 * MAX_BB * MAX_PRIM_COST);
    BoundedMono(Plain(tab, origs).trans, (2 * |origs| + 1) * MAX_PRIM_COST, (2 * MAX_BB + 1) * MAX_PRIM_COST);
  }

  // ----- folding commutes with shifting -----

  function ShiftCandidate(c: Candidate, d: int): Candidate {
    c.(wo := ShiftWaypoint(c.wo, d))
  }

  function ShiftCandidates(cs: seq<Candidate>, d: int): (r: seq<Candidate>)
    ensures |r| == |cs|
    ensures forall i | 0 <= i < |cs| :: r[i] == ShiftCandidate(cs[i], d)
  {
    seq(|cs|, i requires 0 <= i < |cs| => ShiftCandidate(cs[i], d))
  }

  lemma {:induction false} RelaxShift(tab: Tables, ws: seq<Waypoint>, c: Candidate, m: int, d: int)
    requires tab.PrimOk(c.s) && |ws| == tab.maxStates && 0 <= d && m + MAX_PRIM_COST < INF_COST
    requires Bounded(ws, m + MAX_PRIM_COST) && (c.wo.cost == INF_COST || 0 <= c.wo.cost <= m)
    ensures Relax(tab, Shift(ws, d), ShiftCandidate(c, d)) == Shift(Relax(tab, ws, c), d)
    ensures Bounded(Relax(tab, ws, c), m + MAX_PRIM_COST)
  {
    var k := tab.prims[c.s].stateIn;
    if c.wo.cost != INF_COST && Target(tab, c).cost <= ws[k].cost {
      assert Shift(ws[k := Target(tab, c)], d) == Shift(ws, d)[k := ShiftWaypoint(Target(tab, c), d)];
    }
  }

  lemma {:induction false} FoldShift(tab: Tables, init: seq<Waypoint>, cs: seq<Candidate>, m: int, d: int)
    requires CandidatesOk(tab, cs) && |init| == tab.maxStates && 0 <= d && m + MAX_PRIM_COST < INF_COST
    requires Bounded(init, m + MAX_PRIM_COST) && CandidatesBounded(cs, m)
    ensures CandidatesOk(tab, ShiftCandidates(cs, d))
    ensures Fold(tab, Shift(init, d), ShiftCandidates(cs, d)) == Shift(Fold(tab, init, cs), d)
    ensures Bounded(Fold(tab, init, cs), m + MAX_PRIM_COST)
  {
    var shifted := ShiftCandidates(cs, d);
    FoldStep(tab, init, cs);
    FoldStep(tab, Shift(init, d), shifted);
    if cs != [] {
      var shorter := cs[..|cs|-1];
      assert CandidatesOk(tab, shorter) && CandidatesBounded(shorter, m);
      assert shifted[..|cs|-1] == ShiftCandidates(shorter, d);
      FoldShift(tab, init, shorter, m, d);
      RelaxShift(tab, Fold(tab, init, shorter), cs[|cs|-1], m, d);
    }
  }

  lemma {:induction false} WithoutTransitionShift(inst: seq<Waypoint>, d: int)
    ensures WithoutTransition(Shift(inst, d)) == Shift(WithoutTransition(inst), d)
  {
  }

  lemma {:induction false} TransCandidatesShift(tab: Tables, ts: seq<PrimNum>, inst: seq<Waypoint>, d: int)
    requires |inst| == tab.maxStates
    requires forall i | 0 <= i < |ts| :: tab.PrimOk(ts[i])
    ensures TransCandidates(tab, ts, Shift(inst, d)) == ShiftCandidates(TransCandidates(tab, ts, inst), d)
  {
  }

  lemma {:induction false} TransShift(tab: Tables, inst: seq<Waypoint>, m: int, d: int)
    requires |inst| == tab.maxStates && 0 <= d && 0 <= m
    requires Bounded(inst, m) && m + MAX_PRIM_COST < INF_COST
    ensures TransOf(tab, Shift(inst, d)) == Shift(TransOf(tab, inst), d)
  {
    var cs := TransCandidates(tab, tab.transitions, inst);
    BoundedMono(WithoutTransition(inst), m, m + MAX_PRIM_COST);
    FoldShift(tab, WithoutTransition(inst), cs, m, d);
    WithoutTransitionShift(inst, d);
    TransCandidatesShift(tab, tab.transitions, inst, d);
  }

  // ----- one instruction at a time -----

  function SingleCandidates(tab: Tables, ss: seq<PrimNum>, behind: Labels): (r: seq<Candidate>)
    requires AllOk(tab, ss) && LabelsShaped(tab, behind)
    ensures |r| == |ss| && CandidatesOk(tab, r)
    ensures forall i | 0 <= i < |r| :: r[i] == SuperCandidate(tab, ss[i], behind)
  {
    seq(|ss|, i requires 0 <= i < |ss| => SuperCandidate(tab, ss[i], behind))
  }

  function StepInst(tab: Tables, p: PrimNum, behind: Labels): (r: seq<Waypoint>)
    requires LabelsShaped(tab, behind)
    ensures |r| == tab.maxStates
  {
    SupersOk(tab, [p]);
    Fold(tab, Unlabelled(tab), SingleCandidates(tab, tab.Supers([p]), behind))
  }

  /** The labels in front of `p`, as far as implementations of `p` alone go. */
  function Step(tab: Tables, p: PrimNum, behind: Labels): (r: Labels)
    requires LabelsShaped(tab, behind)
    ensures LabelsShaped(tab, r)
  {
    var inst := StepInst(tab, p, behind);
    Labels(inst, TransOf(tab, inst))
  }

  lemma {:induction false} SingleTiles(tab: Tables, origs: seq<PrimNum>, j: nat)
    requires tab.SingleOnly() && 1 <= j <= |origs|
    ensures Tiles(tab, origs, j) == tab.Supers([origs[0]])
    decreases j
  {
    assert origs[..1] == [origs[0]];
    TilesStep(tab, origs, j);
    if j != 1 {
      SingleTiles(tab, origs, j - 1);
      assert |origs[..j]| != 1;
      assert tab.Supers(origs[..j]) == [];
    }
  }

  /** Without longer implementations, the labels of a block depend only on its
      first primitive and the labels behind it. */
  lemma {:induction false} SingleStep(tab: Tables, origs: seq<PrimNum>)
    requires tab.SingleOnly() && origs != []
    ensures Plain(tab, origs) == Step(tab, origs[0], Plain(tab, origs[1..]))
  {
    LabellingTail(tab, origs);
    SingleStepOf(tab, origs, Labelling(tab, origs[1..]));
  }

  lemma {:induction false} SingleStepOf(tab: Tables, origs: seq<PrimNum>, rest: seq<Labels>)
    requires tab.SingleOnly() && origs != []
    requires Shaped(tab, rest) && |rest| == |origs|
    ensures LabelsOf(tab, origs, rest) == Step(tab, origs[0], rest[0])
  {
    SingleTiles(tab, origs, Reach(tab, |origs|));
    SupersOk(tab, [origs[0]]);
    InstAfterIsFold(tab, tab.Supers([origs[0]]), rest);
    SameCandidates(tab, tab.Supers([origs[0]]), rest);
  }

  lemma {:induction false} SameCandidates(tab: Tables, ss: seq<PrimNum>, rest: seq<Labels>)
    requires Shaped(tab, rest) && rest != [] && AllOk(tab, ss) && Applicable(tab, ss, |rest|)
    requires forall i | 0 <= i < |ss| :: tab.prims[ss[i]].length == 1
    ensures SuperCandidates(tab, ss, rest) == SingleCandidates(tab, ss, rest[0])
  {
  }

  lemma {:induction false} SingleCandidatesShift(tab: Tables, ss: seq<PrimNum>, ls: Labels, d: int)
    requires AllOk(tab, ss) && LabelsShaped(tab, ls)
    ensures SingleCandidates(tab, ss, ShiftLabels(ls, d)) == ShiftCandidates(SingleCandidates(tab, ss, ls), d)
  {
  }

  lemma {:induction false} StepShift(tab: Tables, p: PrimNum, ls: Labels, m: int, d: int)
    requires LabelsShaped(tab, ls) && 0 <= d && 0 <= m && m + 2 * MAX_PRIM_COST < INF_COST
    requires Bounded(ls.inst, m) && Bounded(ls.trans, m)
    ensures Step(tab, p, ShiftLabels(ls, d)) == ShiftLabels(Step(tab, p, ls), d)
  {
    SupersOk(tab, [p]);
    var ss := tab.Supers([p]);
    var cs := SingleCandidates(tab, ss, ls);
    assert Shift(Unlabelled(tab), d) == Unlabelled(tab);
    SingleCandidatesShift(tab, ss, ls, d);
    FoldShift(tab, Unlabelled(tab), cs, m, d);
    TransShift(tab, StepInst(tab, p, ls), m + MAX_PRIM_COST, d);
  }

  lemma {:induction false} NormalizedShift(ls: Labels, m: int, d: int)
    requires |ls.inst| > CANONICAL_STATE && 0 <= d && 0 <= m < INF_COST
    requires Bounded(ls.inst, m) && Bounded(ls.trans, m) && ls.inst[CANONICAL_STATE].cost < INF_COST
    ensures Normalized(ShiftLabels(ls, d)) == Normalized(ls)
  {
    var c := ls.inst[CANONICAL_STATE].cost;
    assert Shift(Shift(ls.inst, d), c - d) == Shift(ls.inst, c);
    assert Shift(Shift(ls.trans, d), c - d) == Shift(ls.trans, c);
  }

  /** Labelling on top of normalised labels gives, once normalised, the same as
      labelling on top of the plain ones. */
  lemma {:induction false} NormalizedStep(tab: Tables, origs: seq<PrimNum>)
    requires tab.SingleOnly()
    requires origs != [] && tab.Compilable(origs)
    ensures Normalized(Step(tab, origs[0], Normalized(Plain(tab, origs[1..])))) == Normalized(Plain(tab, origs))
  {
    var behind := Plain(tab, origs[1..]);
    CanonicalFinite(tab, origs[1..]);
    CanonicalFinite(tab, origs);
    LabelsBounded(tab, origs[1..]);
    PlainSmall(tab, origs);
    var m := (2 * |origs| - 1) * MAX_PRIM_COST;
    BoundedMono(behind.inst, 2 * (|origs| - 1) * MAX_PRIM_COST, m);
    StepShift(tab, origs[0], behind, m, behind.inst[CANONICAL_STATE].cost);
    SingleStep(tab, origs);
    var top := (2 * MAX_BB + 1) * MAX_PRIM_COST;
    BoundedMono(Plain(tab, origs).inst, 2 * MAX_BB * MAX_PRIM_COST, top);
    NormalizedShift(Plain(tab, origs), top, behind.inst[CANONICAL_STATE].cost);
  }

  lemma {:induction false} TermNormalized(tab: Tables)
    ensures Normalized(Plain(tab, [])) == Plain(tab, [])
  {
    PlainEmpty(tab);
    assert Shift(TermLabels(tab).inst, 0) == TermLabels(tab).inst;
    assert Shift(TermLabels(tab).trans, 0) == TermLabels(tab).trans;
  }

  /** `ls` and `ls'` lead the forward pass the same way. */
  ghost predicate SameChoices(ls: Labels, ls': Labels) {
    && |ls.inst| == |ls'.inst| && |ls.trans| == |ls'.trans|
    && (forall k | 0 <= k < |ls.inst| ::
          ls'.inst[k] == ls.inst[k].(cost := ls'.inst[k].cost) &&
          (ls'.inst[k].cost == INF_COST <==> ls.inst[k].cost == INF_COST))
    && (forall k | 0 <= k < |ls.trans| ::
          ls'.trans[k] == ls.trans[k].(cost := ls'.trans[k].cost) &&
          (ls'.trans[k].cost == INF_COST <==> ls.trans[k].cost == INF_COST))
  }

  lemma {:induction false} NormalizedSameChoices(tab: Tables, origs: seq<PrimNum>)
    requires tab.Compilable(origs)
    ensures SameChoices(Plain(tab, origs), Normalized(Plain(tab, origs)))
  {
    CanonicalFinite(tab, origs);
    PlainSmall(tab, origs);
  }
}
