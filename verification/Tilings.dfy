/** The meaning of the labels: tilings of a basic block by implementations,
    with state transitions between them. */
module Tilings {
  import opened Basics
  import opened SuperTables

  /** `t` is the optional state transition in front of a tile or at the end. */
  datatype Tiling =
    | End(t: Option<PrimNum>)
    | Tile(t: Option<PrimNum>, s: PrimNum, rest: Tiling)

  ghost predicate Moves(tab: Tables, k: nat, t: Option<PrimNum>, mid: nat) {
    match t
    case None => k == mid
    case Some(p) => p in tab.transitions && p < |tab.prims| && tab.prims[p].stateIn == k && tab.prims[p].stateOut == mid
  }

  /** `T` implements `origs`, starting in state `k` and ending in the canonical
      state; a transition has relocatable code in front of it or behind it.
      `before` says whether the code in front of `T` is relocatable. */
  ghost predicate Valid(tab: Tables, origs: seq<PrimNum>, k: nat, before: bool, T: Tiling)
    decreases T
  {
    match T
    case End(t) =>
      && origs == []
      && (t.Some? ==> before)
      && Moves(tab, k, t, CANONICAL_STATE)
    case Tile(t, s, rest) =>
      && s < |tab.prims|
      && var p := tab.prims[s];
      && 0 < p.length <= |origs|
      && s in tab.Supers(origs[..p.length])
      && Moves(tab, k, t, p.stateIn)
      && (t.Some? ==> before || p.relocatable)
      && Valid(tab, origs[p.length..], p.stateOut, p.relocatable, rest)
  }

  function PrimCost(tab: Tables, p: PrimNum): int {
    if p < |tab.prims| then tab.prims[p].cost else 0
  }

  function MoveCost(tab: Tables, t: Option<PrimNum>): int {
    match t
    case None => 0
    case Some(p) => PrimCost(tab, p)
  }

  function Cost(tab: Tables, T: Tiling): int {
    match T
    case End(t) => MoveCost(tab, t)
    case Tile(t, s, rest) => MoveCost(tab, t) + PrimCost(tab, s) + Cost(tab, rest)
  }

  function TileCount(T: Tiling): nat {
    match T
    case End(_) => 0
    case Tile(_, _, rest) => 1 + TileCount(rest)
  }

  // ----- where a label comes from -----

  /** The labels behind implementation `s` of a prefix of `origs`. */
  function Behind(tab: Tables, origs: seq<PrimNum>, s: PrimNum): (c: Candidate)
    requires tab.PrimOk(s) && tab.prims[s].length <= |origs|
    ensures c.s == s
  {
    SuperCandidate(tab, s, Plain(tab, origs[tab.prims[s].length..]))
  }

  ghost predicate Implements(tab: Tables, origs: seq<PrimNum>, s: PrimNum) {
    && s < |tab.prims|
    && 0 < tab.prims[s].length <= |origs|
    && s in tab.Supers(origs[..tab.prims[s].length])
  }

  lemma {:induction false} SuperLength(tab: Tables, q: seq<PrimNum>, s: PrimNum)
    requires s in tab.Supers(q)
    ensures tab.PrimOk(s) && 0 < tab.prims[s].length == |q| <= tab.maxSuper
  {
    assert q in tab.supers;
  }

  lemma {:induction false} TileIndex(tab: Tables, origs: seq<PrimNum>, s: PrimNum) returns (i: nat)
    requires Implements(tab, origs, s)
    ensures i < |Tiles(tab, origs, Reach(tab, |origs|))| && Tiles(tab, origs, Reach(tab, |origs|))[i] == s
  {
    var len := tab.prims[s].length;
    SuperLength(tab, origs[..len], s);
    TilesAre(tab, origs, Reach(tab, |origs|), s);
    i :| 0 <= i < |Tiles(tab, origs, Reach(tab, |origs|))| && Tiles(tab, origs, Reach(tab, |origs|))[i] == s;
  }

  lemma {:induction false} TileImplements(tab: Tables, origs: seq<PrimNum>, s: PrimNum)
    requires s in Tiles(tab, origs, Reach(tab, |origs|))
    ensures Implements(tab, origs, s)
  {
    TilesAre(tab, origs, Reach(tab, |origs|), s);
    var m :| 0 < m <= Reach(tab, |origs|) && s in tab.Supers(origs[..m]);
    SuperLength(tab, origs[..m], s);
  }

  lemma {:induction false} RestAt(tab: Tables, origs: seq<PrimNum>, len: nat)
    requires 0 < len <= |origs|
    ensures Labelling(tab, origs[1..])[len - 1] == Plain(tab, origs[len..])
  {
    LabellingSuffix(tab, origs[1..], len - 1);
    assert origs[1..][len-1..] == origs[len..];
  }

  lemma {:induction false} CandidateIsBehind(tab: Tables, origs: seq<PrimNum>, i: nat)
    requires origs != []
    requires i < |Tiles(tab, origs, Reach(tab, |origs|))|
    ensures var ss := Tiles(tab, origs, Reach(tab, |origs|));
            Implements(tab, origs, ss[i]) &&
            SuperCandidates(tab, ss, Labelling(tab, origs[1..]))[i] == Behind(tab, origs, ss[i])
  {
    var s := Tiles(tab, origs, Reach(tab, |origs|))[i];
    TileImplements(tab, origs, s);
    RestAt(tab, origs, tab.prims[s].length);
  }

  // ----- bounds -----

  lemma {:induction false} TilingCostBound(tab: Tables, origs: seq<PrimNum>, k: nat, before: bool, T: Tiling)
    requires Valid(tab, origs, k, before, T)
    ensures 0 <= Cost(tab, T) <= (2 * |origs| + 1) * MAX_PRIM_COST
    decreases T
  {
    if T.t.Some? { assert tab.PrimOk(T.t.value); }
    if T.Tile? {
      var p := tab.prims[T.s];
      assert tab.PrimOk(T.s);
      TilingCostBound(tab, origs[p.length..], p.stateOut, p.relocatable, T.rest);
    }
  }

  ghost predicate Bounded(ws: seq<Waypoint>, m: int) {
    forall k | 0 <= k < |ws| :: ws[k].cost == INF_COST || 0 <= ws[k].cost <= m
  }

  ghost predicate CandidatesBounded(cs: seq<Candidate>, m: int) {
    forall i | 0 <= i < |cs| :: cs[i].wo.cost == INF_COST || 0 <= cs[i].wo.cost <= m
  }

  lemma {:induction false} FoldBounded(tab: Tables, init: seq<Waypoint>, cs: seq<Candidate>, m: int)
    requires CandidatesOk(tab, cs) && |init| == tab.maxStates
    requires Bounded(init, m + MAX_PRIM_COST) && CandidatesBounded(cs, m)
    ensures Bounded(Fold(tab, init, cs), m + MAX_PRIM_COST)
  {
    forall k | 0 <= k < tab.maxStates
      ensures var c := Fold(tab, init, cs)[k].cost; c == INF_COST || 0 <= c <= m + MAX_PRIM_COST
    {
      FoldChosen(tab, init, cs, k);
    }
  }

  lemma {:induction false} TransBounded(tab: Tables, inst: seq<Waypoint>, m: int)
    requires |inst| == tab.maxStates && Bounded(inst, m)
    ensures Bounded(TransOf(tab, inst), m + MAX_PRIM_COST)
  {
    FoldBounded(tab, WithoutTransition(inst), TransCandidates(tab, tab.transitions, inst), m);
  }

  lemma {:induction false} BehindBounded(tab: Tables, origs: seq<PrimNum>, s: PrimNum, m: int)
    requires tab.PrimOk(s) && tab.prims[s].length <= |origs|
    requires var ls := Plain(tab, origs[tab.prims[s].length..]); Bounded(ls.inst, m) && Bounded(ls.trans, m)
    ensures var c := Behind(tab, origs, s).wo.cost; c == INF_COST || 0 <= c <= m
  {
  }

  lemma {:induction false} BoundedMono(ws: seq<Waypoint>, m: int, n: int)
    requires Bounded(ws, m) && m <= n
    ensures Bounded(ws, n)
  {
  }

  lemma {:induction false} StepBounded(tab: Tables, origs: seq<PrimNum>, rest: seq<Labels>, m: int)
    requires Shaped(tab, rest) && |rest| == |origs| && m >= 0
    requires CandidatesBounded(SuperCandidates(tab, Tiles(tab, origs, Reach(tab, |origs|)), rest), m)
    ensures Bounded(LabelsOf(tab, origs, rest).inst, m + MAX_PRIM_COST)
    ensures Bounded(LabelsOf(tab, origs, rest).trans, m + 2 * MAX_PRIM_COST)
  {
    InstAfterIsFold(tab, Tiles(tab, origs, Reach(tab, |origs|)), rest);
    FoldBounded(tab, Unlabelled(tab), SuperCandidates(tab, Tiles(tab, origs, Reach(tab, |origs|)), rest), m);
    TransBounded(tab, InstOf(tab, origs, rest), m + MAX_PRIM_COST);
  }

  lemma {:induction false} BehindAllBounded(tab: Tables, origs: seq<PrimNum>, m: int)
    requires origs != []
    requires forall j | 0 < j <= |origs| ::
             Bounded(Plain(tab, origs[j..]).inst, m) && Bounded(Plain(tab, origs[j..]).trans, m)
    ensures CandidatesBounded(SuperCandidates(tab, Tiles(tab, origs, Reach(tab, |origs|)),
            Labelling(tab, origs[1..])), m)
  {
    var ss := Tiles(tab, origs, Reach(tab, |origs|));
    var cs := SuperCandidates(tab, ss, Labelling(tab, origs[1..]));
    forall i | 0 <= i < |cs| ensures cs[i].wo.cost == INF_COST || 0 <= cs[i].wo.cost <= m {
      CandidateIsBehind(tab, origs, i);
      BehindBounded(tab, origs, ss[i], m);
    }
  }

  /** Labels are either infinite or small. */
  lemma {:induction false} LabelsBounded(tab: Tables, origs: seq<PrimNum>)
    ensures Bounded(Plain(tab, origs).inst, 2 * |origs| * MAX_PRIM_COST)
    ensures Bounded(Plain(tab, origs).trans, (2 * |origs| + 1) * MAX_PRIM_COST)
    decreases |origs|
  {
    if origs == [] {
      PlainEmpty(tab);
      TransBounded(tab, TermLabels(tab).inst, 0);
    } else {
      var m := (2 * |origs| - 1) * MAX_PRIM_COST;
      forall j | 0 < j <= |origs|
        ensures Bounded(Plain(tab, origs[j..]).inst, m) && Bounded(Plain(tab, origs[j..]).trans, m)
      {
        LabelsBounded(tab, origs[j..]);
        BoundedMono(Plain(tab, origs[j..]).inst, 2 * (|origs| - j) * MAX_PRIM_COST, m);
        BoundedMono(Plain(tab, origs[j..]).trans, (2 * (|origs| - j) + 1) * MAX_PRIM_COST, m);
      }
      BehindAllBounded(tab, origs, m);
      LabellingTail(tab, origs);
      StepBounded(tab, origs, Labelling(tab, origs[1..]), m);
    }
  }

  /** A finite label in front of an instruction names an implementation of what
      comes next, and adds its cost to the labels behind it. */
  lemma {:induction false} InstLabel(tab: Tables, origs: seq<PrimNum>, k: nat)
    requires origs != [] && k < tab.maxStates
    requires Plain(tab, origs).inst[k].cost != INF_COST
    ensures var w := Plain(tab, origs).inst[k];
            Implements(tab, origs, w.inst) && tab.PrimOk(w.inst) &&
            ChosenFrom(tab, w, Behind(tab, origs, w.inst), k)
  {
    LabellingTail(tab, origs);
    var rest := Labelling(tab, origs[1..]);
    var ss := Tiles(tab, origs, Reach(tab, |origs|));
    var cs := SuperCandidates(tab, ss, rest);
    InstAfterIsFold(tab, ss, rest);
    FoldChosen(tab, Unlabelled(tab), cs, k);
    var w := Plain(tab, origs).inst[k];
    var i :| 0 <= i < |cs| && ChosenFrom(tab, w, cs[i], k);
    CandidateIsBehind(tab, origs, i);
  }

  /** No implementation leads to less than the label. */
  lemma {:induction false} InstLabelBest(tab: Tables, origs: seq<PrimNum>, s: PrimNum)
    requires Implements(tab, origs, s)
    ensures tab.PrimOk(s)
    ensures var c := Behind(tab, origs, s);
            c.wo.cost != INF_COST ==>
              Plain(tab, origs).inst[tab.prims[s].stateIn].cost <= Target(tab, c).cost
  {
    SuperLength(tab, origs[..tab.prims[s].length], s);
    LabellingTail(tab, origs);
    var i := TileIndex(tab, origs, s);
    CandidateIsBehind(tab, origs, i);
    var cs := SuperCandidates(tab, Tiles(tab, origs, Reach(tab, |origs|)), Labelling(tab, origs[1..]));
    InstAfterIsFold(tab, Tiles(tab, origs, Reach(tab, |origs|)), Labelling(tab, origs[1..]));
    FoldBest(tab, Unlabelled(tab), cs, tab.prims[s].stateIn);
    assert cs[i] == Behind(tab, origs, s);
  }

  lemma {:induction false} TilesByLength(tab: Tables, origs: seq<PrimNum>, j: nat, a: nat, b: nat)
    requires j <= |origs| && a <= b < |Tiles(tab, origs, j)|
    ensures tab.prims[Tiles(tab, origs, j)[a]].length <= tab.prims[Tiles(tab, origs, j)[b]].length <= j
    decreases j
  {
    TilesStep(tab, origs, j);
    if j > 0 {
      SupersOk(tab, origs[..j]);
      var n := |Tiles(tab, origs, j - 1)|;
      if b < n { TilesByLength(tab, origs, j - 1, a, b); }
      else if a < n { TilesByLength(tab, origs, j - 1, a, a); }
    }
  }

  /** Of equally cheap implementations a longest one is chosen. */
  lemma {:induction false} LongestOfCheapest(tab: Tables, origs: seq<PrimNum>, s: PrimNum)
    requires Implements(tab, origs, s)
    ensures tab.PrimOk(s)
    ensures var c := Behind(tab, origs, s); var w := Plain(tab, origs).inst[tab.prims[s].stateIn];
            c.wo.cost != INF_COST && w.cost == Target(tab, c).cost ==>
              w.inst < |tab.prims| && tab.prims[s].length <= tab.prims[w.inst].length
  {
    SuperLength(tab, origs[..tab.prims[s].length], s);
    LabellingTail(tab, origs);
    var rest, ss := Labelling(tab, origs[1..]), Tiles(tab, origs, Reach(tab, |origs|));
    var c, k := Behind(tab, origs, s), tab.prims[s].stateIn;
    var j := TileIndex(tab, origs, s);
    CandidateIsBehind(tab, origs, j);
    InstAfterIsFold(tab, ss, rest);
    if c.wo.cost != INF_COST && Plain(tab, origs).inst[k].cost == Target(tab, c).cost {
      var i := FoldLatest(tab, Unlabelled(tab), SuperCandidates(tab, ss, rest), k, j);
      CandidateIsBehind(tab, origs, i);
      TilesByLength(tab, origs, Reach(tab, |origs|), j, i);
    }
  }

  lemma {:induction false} PlainTrans(tab: Tables, origs: seq<PrimNum>)
    ensures Plain(tab, origs).trans == TransOf(tab, Plain(tab, origs).inst)
  {
    if origs == [] { PlainEmpty(tab); } else { LabellingTail(tab, origs); }
  }

  /** A label in front of a transition either repeats the label in front of the
      instruction, or names a transition to the state of such a label. */
  lemma {:induction false} TransLabel(tab: Tables, origs: seq<PrimNum>, k: nat)
    requires k < tab.maxStates
    ensures var ls := Plain(tab, origs); var w := ls.trans[k];
            if w.noTransition then w == ls.inst[k].(noTransition := true)
            else
              && w.inst in tab.transitions && w.inst < |tab.prims|
              && var p := tab.prims[w.inst];
              && p.stateIn == k && p.stateOut < tab.maxStates
              && ls.inst[p.stateOut].cost != INF_COST
              && w.cost == ls.inst[p.stateOut].cost + p.cost
              && w.relocatable == ls.inst[p.stateOut].relocatable
    ensures Plain(tab, origs).trans[k].cost <= Plain(tab, origs).inst[k].cost
  {
    PlainTrans(tab, origs);
    var inst := Plain(tab, origs).inst;
    var cs := TransCandidates(tab, tab.transitions, inst);
    FoldChosen(tab, WithoutTransition(inst), cs, k);
    FoldBest(tab, WithoutTransition(inst), cs, k);
  }

  lemma {:induction false} TransLabelBest(tab: Tables, origs: seq<PrimNum>, t: PrimNum)
    requires t in tab.transitions
    ensures tab.PrimOk(t)
    ensures var ls := Plain(tab, origs); var p := tab.prims[t];
            ls.inst[p.stateOut].cost != INF_COST ==>
              ls.trans[p.stateIn].cost <= ls.inst[p.stateOut].cost + p.cost
  {
    PlainTrans(tab, origs);
    var inst := Plain(tab, origs).inst;
    var cs := TransCandidates(tab, tab.transitions, inst);
    var i :| 0 <= i < |tab.transitions| && tab.transitions[i] == t;
    FoldBest(tab, WithoutTransition(inst), cs, tab.prims[t].stateIn);
    assert cs[i].s == t;
  }

  /** A transition that costs nothing more than going on without one is taken. */
  lemma {:induction false} MovePreferred(tab: Tables, origs: seq<PrimNum>, t: PrimNum)
    requires t in tab.transitions
    ensures tab.PrimOk(t)
    ensures var ls := Plain(tab, origs); var p := tab.prims[t];
            && ls.inst[p.stateOut].cost != INF_COST
            && ls.trans[p.stateIn].cost == ls.inst[p.stateOut].cost + p.cost
            ==> !ls.trans[p.stateIn].noTransition
  {
    assert tab.PrimOk(t);
    PlainTrans(tab, origs);
    var inst, k := Plain(tab, origs).inst, tab.prims[t].stateIn;
    var cs := TransCandidates(tab, tab.transitions, inst);
    var j :| 0 <= j < |tab.transitions| && tab.transitions[j] == t;
    assert cs[j] == TransCandidate(tab, t, inst);
    if cs[j].wo.cost != INF_COST && Plain(tab, origs).trans[k].cost == Target(tab, cs[j]).cost {
      var i := FoldLatest(tab, WithoutTransition(inst), cs, k, j);
      assert cs[i] == TransCandidate(tab, tab.transitions[i], inst);
    }
  }

  /** A compilable block always has a finite label in the canonical state. */
  lemma {:induction false} CanonicalFinite(tab: Tables, origs: seq<PrimNum>)
    requires tab.Compilable(origs)
    ensures Plain(tab, origs).inst[CANONICAL_STATE].cost < INF_COST
    decreases |origs|
  {
    LabelsBounded(tab, origs);
    if origs == [] {
      PlainEmpty(tab);
    } else {
      assert tab.HasCanonical(origs[0]);
      var s :| s in tab.Supers([origs[0]]) && s < |tab.prims| &&
               tab.prims[s].stateIn == tab.prims[s].stateOut == CANONICAL_STATE;
      assert origs[..1] == [origs[0]];
      CanonicalFinite(tab, origs[1..]);
      LabelsBounded(tab, origs[1..]);
      TransLabel(tab, origs[1..], CANONICAL_STATE);
      assert Implements(tab, origs, s);
      InstLabelBest(tab, origs, s);
    }
  }
}
