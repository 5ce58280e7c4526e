/** The static tables of the superinstruction selector, and the labels it
    attaches to the positions of a basic block (engine/main.c). */
module SuperTables {

  const CANONICAL_STATE: nat := 0
  const INF_COST: int := 1000000
  const MAX_BB: nat := 128

  /** The largest cost of one primitive for which no path through a block of
      MAX_BB instructions reaches INF_COST. */
  const MAX_PRIM_COST: nat := 3800

  type PrimNum = nat

  /** What selection needs of `super_costs`, `priminfos` and `ss_cost`. */
  datatype Prim = Prim(stateIn: nat, stateOut: nat, length: nat, cost: nat, relocatable: bool)

  /** The tables that `prepare_super_table` builds.  `supers` maps a sequence of
      primitives to the list of its implementations, `transitions` is the list
      of stack-cache state transitions. */
  datatype TableData = TableData(
    prims: seq<Prim>,
    supers: map<seq<PrimNum>, seq<PrimNum>>,
    transitions: seq<PrimNum>,
    maxStates: nat,
    maxSuper: nat)
  {
    ghost predicate PrimOk(p: PrimNum) {
      && p < |prims|
      && prims[p].stateIn < maxStates
      && prims[p].stateOut < maxStates
      && prims[p].cost <= MAX_PRIM_COST
    }

    ghost predicate WellFormed() {
      && CANONICAL_STATE < maxStates
      && 0 < maxSuper
      && (forall q, s | q in supers && s in supers[q] ::
            PrimOk(s) && 0 < prims[s].length == |q| <= maxSuper)
      && (forall t | t in transitions :: PrimOk(t) && prims[t].relocatable)
    }

    /** `lookup_super`. */
    function Supers(q: seq<PrimNum>): seq<PrimNum> {
      if q in supers then supers[q] else []
    }

    ghost predicate HasCanonical(p: PrimNum) {
      exists s :: s in Supers([p]) && s < |prims| &&
        prims[s].stateIn == prims[s].stateOut == CANONICAL_STATE
    }

    /** Every primitive of the block can be compiled on its own, from the
        canonical state to the canonical state. */
    ghost predicate Compilable(origs: seq<PrimNum>) {
      |origs| <= MAX_BB && forall p | p in origs :: HasCanonical(p)
    }

    /** No implementation covers more than one instruction. */
    ghost predicate SingleOnly() {
      forall q | q in supers && supers[q] != [] :: |q| == 1
    }
  }

  type Tables = t: TableData | t.WellFormed() witness TableData([], map[], [], 1, 1)

  /** `struct waypoint`. */
  datatype Waypoint = Waypoint(cost: int, inst: PrimNum, relocatable: bool, noTransition: bool)

  /** The contents of a `struct tpa_state`: `inst` holds the labels in front of
      an instruction, `trans` those in front of a transition and an instruction. */
  datatype Labels = Labels(inst: seq<Waypoint>, trans: seq<Waypoint>)

  /** One way to reach `wo` by emitting `s`. */
  datatype Candidate = Candidate(s: PrimNum, wo: Waypoint, relocatable: bool, noTransition: bool)

  ghost predicate CandidatesOk(tab: Tables, cs: seq<Candidate>) {
    forall i | 0 <= i < |cs| :: tab.PrimOk(cs[i].s)
  }

  function Target(tab: Tables, c: Candidate): Waypoint
    requires c.s < |tab.prims|
  {
    Waypoint(c.wo.cost + tab.prims[c.s].cost, c.s, c.relocatable, c.noTransition)
  }

  /** One relaxation step; on equal cost the later candidate wins. */
  function Relax(tab: Tables, ws: seq<Waypoint>, c: Candidate): (r: seq<Waypoint>)
    requires tab.PrimOk(c.s) && |ws| == tab.maxStates
    ensures |r| == |ws|
  {
    var k := tab.prims[c.s].stateIn;
    if c.wo.cost != INF_COST && Target(tab, c).cost <= ws[k].cost then ws[k := Target(tab, c)] else ws
  }

  /** Relaxes by all candidates in turn. */
  function Fold(tab: Tables, init: seq<Waypoint>, cs: seq<Candidate>): (r: seq<Waypoint>)
    requires CandidatesOk(tab, cs) && |init| == tab.maxStates
    ensures |r| == tab.maxStates
    decreases |cs|, 1
  {
    FoldLast(tab, init, cs)
  }

  function FoldLast(tab: Tables, init: seq<Waypoint>, cs: seq<Candidate>): (r: seq<Waypoint>)
    requires CandidatesOk(tab, cs) && |init| == tab.maxStates
    ensures |r| == tab.maxStates
    decreases |cs|, 0
  {
    if cs == [] then init
    else
      assert CandidatesOk(tab, cs[..|cs|-1]);
      Relax(tab, Fold(tab, init, cs[..|cs|-1]), cs[|cs|-1])
  }

  lemma {:induction false} FoldStep(tab: Tables, init: seq<Waypoint>, cs: seq<Candidate>)
    requires CandidatesOk(tab, cs) && |init| == tab.maxStates
    ensures cs == [] ==> Fold(tab, init, cs) == init
    ensures cs != [] ==> CandidatesOk(tab, cs[..|cs|-1]) && tab.PrimOk(cs[|cs|-1].s)
    ensures cs != [] ==> Fold(tab, init, cs) == Relax(tab, Fold(tab, init, cs[..|cs|-1]), cs[|cs|-1])
  {
    assert Fold(tab, init, cs) == FoldLast(tab, init, cs);
    if cs != [] { assert CandidatesOk(tab, cs[..|cs|-1]); }
  }

  function Unlabelled(tab: Tables): (r: seq<Waypoint>)
    ensures |r| == tab.maxStates
  {
    seq(tab.maxStates, _ => Waypoint(INF_COST, 0, false, false))
  }

  function WithoutTransition(inst: seq<Waypoint>): (r: seq<Waypoint>)
    ensures |r| == |inst|
  {
    seq(|inst|, k requires 0 <= k < |inst| => inst[k].(noTransition := true))
  }

  function TransCandidate(tab: Tables, t: PrimNum, inst: seq<Waypoint>): Candidate
    requires tab.PrimOk(t) && |inst| == tab.maxStates
  {
    var wo := inst[tab.prims[t].stateOut];
    Candidate(t, wo, wo.relocatable, false)
  }

  function TransCandidates(tab: Tables, ts: seq<PrimNum>, inst: seq<Waypoint>): (r: seq<Candidate>)
    requires |inst| == tab.maxStates
    requires forall i | 0 <= i < |ts| :: tab.PrimOk(ts[i])
    ensures |r| == |ts| && CandidatesOk(tab, r)
  {
    seq(|ts|, i requires 0 <= i < |ts| => TransCandidate(tab, ts[i], inst))
  }

  /** `transitions`: the labels in front of an optional state transition. */
  function TransOf(tab: Tables, inst: seq<Waypoint>): (r: seq<Waypoint>)
    requires |inst| == tab.maxStates
    ensures |r| == tab.maxStates
  {
    Fold(tab, WithoutTransition(inst), TransCandidates(tab, tab.transitions, inst))
  }

  /** The labels that emitting `s` leads to, and whether the transition in
      front of them must not be used. */
  function SuperCandidate(tab: Tables, s: PrimNum, behind: Labels): (c: Candidate)
    requires tab.PrimOk(s) && |behind.inst| == |behind.trans| == tab.maxStates
    ensures c.s == s
  {
    var k := tab.prims[s].stateOut;
    var wo := behind.trans[k];
    if !tab.prims[s].relocatable && !wo.relocatable
    then Candidate(s, behind.inst[k], false, true)
    else Candidate(s, wo, tab.prims[s].relocatable, wo.noTransition)
  }

  ghost predicate Shaped(tab: Tables, ls: seq<Labels>) {
    forall i | 0 <= i < |ls| :: |ls[i].inst| == |ls[i].trans| == tab.maxStates
  }

  ghost predicate Applicable(tab: Tables, ss: seq<PrimNum>, n: nat) {
    forall i | 0 <= i < |ss| :: tab.PrimOk(ss[i]) && 0 < tab.prims[ss[i]].length <= n
  }

  /** `rest[j-1]` holds the labels behind an implementation of `j` instructions. */
  function SuperCandidates(tab: Tables, ss: seq<PrimNum>, rest: seq<Labels>): (r: seq<Candidate>)
    requires Shaped(tab, rest) && Applicable(tab, ss, |rest|)
    ensures |r| == |ss| && CandidatesOk(tab, r)
    ensures forall i | 0 <= i < |r| :: r[i] == SuperCandidate(tab, ss[i], rest[tab.prims[ss[i]].length - 1])
  {
    seq(|ss|, i requires 0 <= i < |ss| => SuperCandidate(tab, ss[i], rest[tab.prims[ss[i]].length - 1]))
  }

  /** The implementations of the first `j` or fewer instructions, in the order
      in which the labeller tries them. */
  function Tiles(tab: Tables, origs: seq<PrimNum>, j: nat): (r: seq<PrimNum>)
    requires j <= |origs|
    ensures Applicable(tab, r, j)
    decreases j, 1
  {
    TilesHere(tab, origs, j)
  }

  function TilesHere(tab: Tables, origs: seq<PrimNum>, j: nat): (r: seq<PrimNum>)
    requires j <= |origs|
    ensures Applicable(tab, r, j)
    decreases j, 0
  {
    if j == 0 then []
    else
      SupersOk(tab, origs[..j]);
      Tiles(tab, origs, j - 1) + tab.Supers(origs[..j])
  }

  lemma {:induction false} TilesStep(tab: Tables, origs: seq<PrimNum>, j: nat)
    requires j <= |origs|
    ensures Tiles(tab, origs, 0) == []
    ensures 0 < j ==> Tiles(tab, origs, j) == Tiles(tab, origs, j - 1) + tab.Supers(origs[..j])
  {
    assert Tiles(tab, origs, 0) == TilesHere(tab, origs, 0);
    assert Tiles(tab, origs, j) == TilesHere(tab, origs, j);
  }

  ghost predicate AllOk(tab: Tables, ss: seq<PrimNum>) {
    forall i | 0 <= i < |ss| :: tab.PrimOk(ss[i])
  }

  lemma {:induction false} SupersOk(tab: Tables, q: seq<PrimNum>)
    ensures AllOk(tab, tab.Supers(q))
    ensures forall s | s in tab.Supers(q) :: 0 < tab.prims[s].length == |q| <= tab.maxSuper
  {
    forall s | s in tab.Supers(q) ensures tab.PrimOk(s) && 0 < tab.prims[s].length == |q| <= tab.maxSuper {
      assert q in tab.supers;
    }
  }

  /** `Tiles` finds exactly the implementations of the prefixes. */
  lemma {:induction false} TilesAre(tab: Tables, origs: seq<PrimNum>, j: nat, s: PrimNum)
    requires j <= |origs|
    ensures s in Tiles(tab, origs, j) <==> exists m :: 0 < m <= j && s in tab.Supers(origs[..m])
    decreases j
  {
    TilesStep(tab, origs, j);
    if j > 0 {
      TilesAre(tab, origs, j - 1, s);
      if s in Tiles(tab, origs, j - 1) {
        var m :| 0 < m <= j - 1 && s in tab.Supers(origs[..m]);
        assert 0 < m <= j && s in tab.Supers(origs[..m]);
      }
    }
  }

  function Reach(tab: Tables, n: nat): nat {
    if tab.maxSuper < n then tab.maxSuper else n
  }

  function InstOf(tab: Tables, origs: seq<PrimNum>, rest: seq<Labels>): (r: seq<Waypoint>)
    requires Shaped(tab, rest) && |rest| == |origs|
    ensures |r| == tab.maxStates
  {
    InstUpTo(tab, origs, rest, Reach(tab, |origs|))
  }

  /** The labels after trying all implementations of `j` or fewer instructions. */
  function InstUpTo(tab: Tables, origs: seq<PrimNum>, rest: seq<Labels>, j: nat): (r: seq<Waypoint>)
    requires Shaped(tab, rest) && j <= |rest| == |origs|
    ensures |r| == tab.maxStates
  {
    InstAfter(tab, Tiles(tab, origs, j), rest)
  }

  /** The labels after trying the implementations `ss` in turn. */
  function InstAfter(tab: Tables, ss: seq<PrimNum>, rest: seq<Labels>): (r: seq<Waypoint>)
    requires Shaped(tab, rest) && Applicable(tab, ss, |rest|)
    ensures |r| == tab.maxStates
    decreases |ss|, 1
  {
    InstAfterLast(tab, ss, rest)
  }

  function InstAfterLast(tab: Tables, ss: seq<PrimNum>, rest: seq<Labels>): (r: seq<Waypoint>)
    requires Shaped(tab, rest) && Applicable(tab, ss, |rest|)
    ensures |r| == tab.maxStates
    decreases |ss|, 0
  {
    if ss == [] then Unlabelled(tab)
    else
      var s := ss[|ss|-1];
      Relax(tab, InstAfter(tab, ss[..|ss|-1], rest), SuperCandidate(tab, s, rest[tab.prims[s].length - 1]))
  }

  lemma {:induction false} InstAfterNone(tab: Tables, rest: seq<Labels>)
    requires Shaped(tab, rest)
    ensures InstAfter(tab, [], rest) == Unlabelled(tab)
  {
    assert InstAfter(tab, [], rest) == InstAfterLast(tab, [], rest);
  }

  lemma {:induction false} InstAfterStep(tab: Tables, ss: seq<PrimNum>, s: PrimNum, rest: seq<Labels>)
    requires Shaped(tab, rest) && Applicable(tab, ss, |rest|)
    requires tab.PrimOk(s) && 0 < tab.prims[s].length <= |rest|
    ensures Applicable(tab, ss + [s], |rest|)
    ensures InstAfter(tab, ss + [s], rest) ==
            Relax(tab, InstAfter(tab, ss, rest), SuperCandidate(tab, s, rest[tab.prims[s].length - 1]))
  {
    assert InstAfter(tab, ss + [s], rest) == InstAfterLast(tab, ss + [s], rest);
    assert (ss + [s])[..|ss|] == ss;
  }

  lemma {:induction false} InstAfterNext(tab: Tables, ss: seq<PrimNum>, supers: seq<PrimNum>, n: nat, rest: seq<Labels>)
    requires Shaped(tab, rest) && n < |supers| && Applicable(tab, ss + supers[..n], |rest|)
    requires tab.PrimOk(supers[n]) && 0 < tab.prims[supers[n]].length <= |rest|
    ensures Applicable(tab, ss + supers[..n+1], |rest|)
    ensures InstAfter(tab, ss + supers[..n+1], rest) ==
            Relax(tab, InstAfter(tab, ss + supers[..n], rest),
              SuperCandidate(tab, supers[n], rest[tab.prims[supers[n]].length - 1]))
  {
    InstAfterStep(tab, ss + supers[..n], supers[n], rest);
    assert ss + supers[..n+1] == ss + supers[..n] + [supers[n]];
  }

  lemma {:induction false} CandidatesPrefix(tab: Tables, ss: seq<PrimNum>, rest: seq<Labels>)
    requires Shaped(tab, rest) && Applicable(tab, ss, |rest|) && ss != []
    ensures Applicable(tab, ss[..|ss|-1], |rest|)
    ensures SuperCandidates(tab, ss, rest)[..|ss|-1] == SuperCandidates(tab, ss[..|ss|-1], rest)
  {
  }

  lemma {:induction false} InstAfterIsFold(tab: Tables, ss: seq<PrimNum>, rest: seq<Labels>)
    requires Shaped(tab, rest) && Applicable(tab, ss, |rest|)
    ensures InstAfter(tab, ss, rest) == Fold(tab, Unlabelled(tab), SuperCandidates(tab, ss, rest))
  {
    var cs := SuperCandidates(tab, ss, rest);
    FoldStep(tab, Unlabelled(tab), cs);
    if ss == [] {
      InstAfterNone(tab, rest);
    } else {
      var shorter := ss[..|ss|-1];
      CandidatesPrefix(tab, ss, rest);
      InstAfterIsFold(tab, shorter, rest);
      assert InstAfter(tab, ss, rest) == InstAfterLast(tab, ss, rest);
    }
  }

  /** `make_termstate`. */
  function TermLabels(tab: Tables): (r: Labels)
    ensures |r.inst| == |r.trans| == tab.maxStates
  {
    var inst := Unlabelled(tab)[CANONICAL_STATE := Waypoint(0, 0, false, false)];
    Labels(inst, TransOf(tab, inst))
  }

  /** One step of the labeller, given the labels behind. */
  function LabelsOf(tab: Tables, origs: seq<PrimNum>, rest: seq<Labels>): (r: Labels)
    requires Shaped(tab, rest) && |rest| == |origs|
    ensures |r.inst| == |r.trans| == tab.maxStates
  {
    var inst := InstOf(tab, origs, rest);
    Labels(inst, TransOf(tab, inst))
  }

  /** The plain dynamic program: entry `i` labels the block from `i` on. */
  function Labelling(tab: Tables, origs: seq<PrimNum>): (r: seq<Labels>)
    ensures |r| == |origs| + 1 && Shaped(tab, r)
    decreases |origs|, 3
  {
    if origs == [] then [Plain(tab, origs)]
    else
      var rest := Labelling(tab, origs[1..]);
      ConsShaped(tab, Plain(tab, origs), rest);
      [Plain(tab, origs)] + rest
  }

  /** The labels at the start of a block. */
  function Plain(tab: Tables, origs: seq<PrimNum>): (r: Labels)
    ensures |r.inst| == |r.trans| == tab.maxStates
    decreases |origs|, 2
  {
    PlainStep(tab, origs)
  }

  function PlainStep(tab: Tables, origs: seq<PrimNum>): (r: Labels)
    ensures |r.inst| == |r.trans| == tab.maxStates
    decreases |origs|, 1
  {
    PlainHere(tab, origs)
  }

  function PlainHere(tab: Tables, origs: seq<PrimNum>): (r: Labels)
    ensures |r.inst| == |r.trans| == tab.maxStates
    decreases |origs|, 0
  {
    if origs == [] then TermLabels(tab) else LabelsOf(tab, origs, Labelling(tab, origs[1..]))
  }

  lemma {:induction false} ConsShaped(tab: Tables, first: Labels, rest: seq<Labels>)
    requires Shaped(tab, rest) && |first.inst| == |first.trans| == tab.maxStates
    ensures Shaped(tab, [first] + rest)
  {
  }

  lemma {:induction false} PlainEmpty(tab: Tables)
    ensures Plain(tab, []) == TermLabels(tab)
  {
    assert Plain(tab, []) == PlainStep(tab, []) == PlainHere(tab, []);
  }

  lemma {:induction false} LabellingTail(tab: Tables, origs: seq<PrimNum>)
    requires origs != []
    ensures Labelling(tab, origs)[1..] == Labelling(tab, origs[1..])
    ensures Plain(tab, origs) == LabelsOf(tab, origs, Labelling(tab, origs[1..]))
  {
    assert Labelling(tab, origs) == [Plain(tab, origs)] + Labelling(tab, origs[1..]);
    assert Plain(tab, origs) == PlainStep(tab, origs) == PlainHere(tab, origs);
  }

  lemma {:induction false} LabellingSuffix(tab: Tables, origs: seq<PrimNum>, i: nat)
    requires i <= |origs|
    ensures Labelling(tab, origs)[i..] == Labelling(tab, origs[i..])
    ensures Labelling(tab, origs)[i] == Plain(tab, origs[i..])
  {
    if i == 0 {
      assert origs[0..] == origs;
      var ls := Labelling(tab, origs);
      assert ls[0..] == ls;
    } else {
      LabellingTail(tab, origs);
      LabellingSuffix(tab, origs[1..], i - 1);
      assert origs[1..][i-1..] == origs[i..];
      var ls := Labelling(tab, origs);
      assert ls[i..] == ls[1..][i-1..] && ls[i] == ls[1..][i-1];
    }
  }

  // ----- what a fold computes -----

  lemma {:induction false} FoldBest(tab: Tables, init: seq<Waypoint>, cs: seq<Candidate>, k: nat)
    requires CandidatesOk(tab, cs) && |init| == tab.maxStates && k < tab.maxStates
    ensures Fold(tab, init, cs)[k].cost <= init[k].cost
    ensures forall i | 0 <= i < |cs| && tab.prims[cs[i].s].stateIn == k && cs[i].wo.cost != INF_COST ::
              Fold(tab, init, cs)[k].cost <= Target(tab, cs[i]).cost
  {
    FoldStep(tab, init, cs);
    if cs != [] {
      var shorter := cs[..|cs|-1];
      FoldBest(tab, init, shorter, k);
      forall i | 0 <= i < |cs| && tab.prims[cs[i].s].stateIn == k && cs[i].wo.cost != INF_COST
        ensures Fold(tab, init, cs)[k].cost <= Target(tab, cs[i]).cost
      {
        if i < |cs| - 1 { assert shorter[i] == cs[i]; }
      }
    }
  }

  ghost predicate ChosenFrom(tab: Tables, w: Waypoint, c: Candidate, k: nat)
    requires tab.PrimOk(c.s)
  {
    tab.prims[c.s].stateIn == k && c.wo.cost != INF_COST && w == Target(tab, c)
  }

  lemma {:induction false} FoldChosen(tab: Tables, init: seq<Waypoint>, cs: seq<Candidate>, k: nat)
    requires CandidatesOk(tab, cs) && |init| == tab.maxStates && k < tab.maxStates
    ensures Fold(tab, init, cs)[k] == init[k] ||
            exists i :: 0 <= i < |cs| && ChosenFrom(tab, Fold(tab, init, cs)[k], cs[i], k)
  {
    FoldStep(tab, init, cs);
    if cs != [] {
      var shorter := cs[..|cs|-1];
      FoldChosen(tab, init, shorter, k);
      if Fold(tab, init, cs)[k] == Fold(tab, init, shorter)[k] != init[k] {
        var i :| 0 <= i < |shorter| && ChosenFrom(tab, Fold(tab, init, shorter)[k], shorter[i], k);
        assert ChosenFrom(tab, Fold(tab, init, cs)[k], cs[i], k);
      } else if Fold(tab, init, cs)[k] != init[k] {
        assert ChosenFrom(tab, Fold(tab, init, cs)[k], cs[|cs|-1], k);
      }
    }
  }

  /** On equal cost the later candidate wins. */
  lemma {:induction false} FoldLatest(tab: Tables, init: seq<Waypoint>, cs: seq<Candidate>, k: nat, j: nat)
    returns (i: nat)
    requires CandidatesOk(tab, cs) && |init| == tab.maxStates && k < tab.maxStates && j < |cs|
    requires ChosenFrom(tab, Target(tab, cs[j]), cs[j], k) && Fold(tab, init, cs)[k].cost == Target(tab, cs[j]).cost
    ensures j <= i < |cs| && ChosenFrom(tab, Fold(tab, init, cs)[k], cs[i], k)
  {
    FoldStep(tab, init, cs);
    var n := |cs| - 1;
    if ChosenFrom(tab, Fold(tab, init, cs)[k], cs[n], k) {
      i := n;
    } else {
      i := FoldLatest(tab, init, cs[..n], k, j);
    }
  }
}
