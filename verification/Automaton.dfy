/** `optimize_rewrite`: labelling with the tree-parsing automaton, and the
    forward pass that compiles the chosen implementations. */
module Automaton {
  import opened Basics
  import opened SuperTables
  import opened Tilings
  import opened Extraction
  import opened Optimality
  import opened Emission
  import opened Normal

  /** `struct tpa_state`. */
  class TpaState {
    var inst: seq<Waypoint>
    var trans: seq<Waypoint>

    function Contents(): Labels
      reads this
    {
      Labels(inst, trans)
    }

    /** `empty_tpa_state`. */
    constructor (tab: Tables)
      ensures inst == Unlabelled(tab)
    {
      inst := Unlabelled(tab);
      trans := [];
    }

    /** The inner step shared by the labeller and `transitions`. */
    method RelaxInst(tab: Tables, c: Candidate)
      requires tab.PrimOk(c.s) && |inst| == tab.maxStates
      modifies this`inst
      ensures inst == Relax(tab, old(inst), c)
    {
      var p := tab.prims[c.s];
      if c.wo.cost != INF_COST {
        var jcost := c.wo.cost + p.cost;
        if jcost <= inst[p.stateIn].cost {
          inst := inst[p.stateIn := Waypoint(jcost, c.s, c.relocatable, c.noTransition)];
        }
      }
    }

    method RelaxTrans(tab: Tables, s: PrimNum)
      requires tab.PrimOk(s) && |inst| == |trans| == tab.maxStates
      modifies this`trans
      ensures trans == Relax(tab, old(trans), TransCandidate(tab, s, inst))
    {
      var p := tab.prims[s];
      var wo := inst[p.stateOut];
      if wo.cost != INF_COST {
        var jcost := wo.cost + p.cost;
        if jcost <= trans[p.stateIn].cost {
          trans := trans[p.stateIn := Waypoint(jcost, s, wo.relocatable, false)];
        }
      }
    }

    /** `transitions`. */
    method Transitions(tab: Tables)
      requires |inst| == tab.maxStates
      modifies this`trans
      ensures trans == TransOf(tab, inst)
    {
      trans := WithoutTransition(inst);
      ghost var cs := TransCandidates(tab, tab.transitions, inst);
      FoldStep(tab, trans, cs[..0]);
      var l := 0;
      while l < |tab.transitions|
        invariant 0 <= l <= |tab.transitions|
        invariant CandidatesOk(tab, cs[..l])
        invariant trans == Fold(tab, WithoutTransition(inst), cs[..l])
      {
        RelaxTrans(tab, tab.transitions[l]);
        TransStep(tab, inst, l);
        l := l + 1;
      }
      assert cs[..l] == cs;
    }

    /** `tpa_state_normalize`. */
    method Normalize()
      requires |inst| == |trans| > CANONICAL_STATE
      modifies this
      ensures Contents() == Normalized(old(Contents()))
    {
      var d := inst[CANONICAL_STATE].cost;
      ghost var inst0, trans0 := inst, trans;
      var i := 0;
      while i < |inst|
        invariant 0 <= i <= |inst| == |inst0| && |trans| == |trans0| == |inst0|
        invariant forall k | 0 <= k < |inst| :: inst[k] == if k < i then ShiftWaypoint(inst0[k], d) else inst0[k]
        invariant forall k | 0 <= k < |trans| :: trans[k] == if k < i then ShiftWaypoint(trans0[k], d) else trans0[k]
      {
        if inst[i].cost != INF_COST { inst := inst[i := inst[i].(cost := inst[i].cost - d)]; }
        if trans[i].cost != INF_COST { trans := trans[i := trans[i].(cost := trans[i].cost - d)]; }
        i := i + 1;
      }
      assert inst == Shift(inst0, d) && trans == Shift(trans0, d);
    }
  }

  lemma {:induction false} TransStep(tab: Tables, inst: seq<Waypoint>, l: nat)
    requires |inst| == tab.maxStates && l < |tab.transitions|
    ensures tab.PrimOk(tab.transitions[l])
    ensures var cs := TransCandidates(tab, tab.transitions, inst); var init := WithoutTransition(inst);
            && CandidatesOk(tab, cs[..l]) && CandidatesOk(tab, cs[..l+1])
            && Fold(tab, init, cs[..l+1]) ==
               Relax(tab, Fold(tab, init, cs[..l]), TransCandidate(tab, tab.transitions[l], inst))
  {
    var cs := TransCandidates(tab, tab.transitions, inst);
    assert cs[..l+1][..l] == cs[..l];
    FoldStep(tab, WithoutTransition(inst), cs[..l+1]);
  }

  /** What the labeller stores for a block: normalised labels, unless the
      automaton is switched off. */
  function View(tab: Tables, noAutomaton: bool, origs: seq<PrimNum>): (r: Labels)
    ensures LabelsShaped(tab, r)
  {
    if noAutomaton then Plain(tab, origs) else Normalized(Plain(tab, origs))
  }

  /** The state that survives from one block to the next. */
  class Selector {
    const tab: Tables
    const noAutomaton: bool
    const noEquiv: bool
    const hash: Labels -> nat

    var termstate: TpaState
    /** `tpa_table`, keyed by primitive and state behind. */
    var tpaTable: map<(PrimNum, TpaState), TpaState?>
    /** `tpa_state_table`: the bucket for each hash value. */
    var stateTable: map<nat, seq<TpaState>>
    /** All states that may be shared; they are never changed again. */
    ghost var repr: set<TpaState>

    ghost predicate StatesOk()
      reads this, repr
    {
      && termstate in repr
      && termstate.Contents() == Plain(tab, [])
      && (forall o | o in repr :: LabelsShaped(tab, o.Contents()))
    }

    /** Every recorded transition of the automaton is a labelling step. */
    ghost predicate TableOk()
      reads this, repr
    {
      forall e | e in tpaTable ::
        && e.1 in repr && LabelsShaped(tab, e.1.Contents())
        && (tpaTable[e] != null ==>
              tpaTable[e] in repr && tpaTable[e].Contents() == Normalized(Step(tab, e.0, e.1.Contents())))
    }

    /** A bucket never holds more than one state: `lookup_tpa_state` makes the
        new entry point behind the end of the chain that it has just searched. */
    ghost predicate BucketsOk()
      reads this, repr
    {
      forall h | h in stateTable ::
        |stateTable[h]| <= 1 && forall i | 0 <= i < |stateTable[h]| :: stateTable[h][i] in repr
    }

    ghost predicate Valid()
      reads this, repr
    {
      && (noAutomaton || tab.SingleOnly())
      && StatesOk() && TableOk() && BucketsOk()
    }

    constructor (tab: Tables, noAutomaton: bool, noEquiv: bool, hash: Labels -> nat)
      ensures StatesOk() && fresh(repr)
      ensures noAutomaton || tab.SingleOnly() ==> Valid()
      ensures this.tab == tab && this.noAutomaton == noAutomaton
    {
      this.tab, this.noAutomaton, this.noEquiv, this.hash := tab, noAutomaton, noEquiv, hash;
      tpaTable, stateTable := map[], map[];
      // make_termstate
      var s := new TpaState(tab);
      s.inst := s.inst[CANONICAL_STATE := s.inst[CANONICAL_STATE].(cost := 0)];
      s.Transitions(tab);
      termstate := s;
      repr := {s};
      PlainEmpty(tab);
    }

    /** `lookup_tpa`: the recorded state, or null for a slot to be filled. */
    method LookupTpa(p: PrimNum, b: TpaState) returns (r: TpaState?)
      requires Valid() && b in repr
      modifies this`tpaTable
      ensures Valid()
      ensures r == if !noAutomaton && (p, b) in old(tpaTable) then old(tpaTable)[(p, b)] else null
      ensures tpaTable ==
              if noAutomaton || (p, b) in old(tpaTable) then old(tpaTable) else old(tpaTable)[(p, b) := null]
    {
      if noAutomaton { return null; }
      if (p, b) in tpaTable { return tpaTable[(p, b)]; }
      tpaTable := tpaTable[(p, b) := null];
      r := null;
    }

    function Bucket(table: map<nat, seq<TpaState>>, ls: Labels): seq<TpaState> {
      if hash(ls) in table then table[hash(ls)] else []
    }

    /** `lookup_tpa_state`: replaces `t` by an equivalent known state, if it is
        found, and remembers `t` otherwise. */
    method LookupTpaState(t: TpaState) returns (r: TpaState)
      requires Valid() && LabelsShaped(tab, t.Contents())
      modifies this`stateTable, this`repr
      ensures Valid() && r in repr && r.Contents() == t.Contents()
      ensures old(repr) <= repr <= old(repr) + {t}
      ensures stateTable == if noEquiv then old(stateTable) else old(stateTable)[hash(t.Contents()) := [r]]
      ensures r == t || (!noEquiv && Bucket(old(stateTable), t.Contents()) == [r])
      ensures !noEquiv ==>
                forall x | x in Bucket(old(stateTable), t.Contents()) && x.Contents() == t.Contents() :: r == x
    {
      if !noEquiv {
        var h := hash(t.Contents());
        var te := Bucket(stateTable, t.Contents());
        var i := FindEquivalent(te, t);
        if i < |te| {
          assert te == [te[i]] && stateTable == stateTable[h := te];
          return te[i];
        }
        assert [t] + te[i..] == [t];
        stateTable := stateTable[h := [t] + te[i..]];
      }
      repr := repr + {t};
      r := t;
    }

    /** `tpa_state_equivalent`, along a bucket. */
    method FindEquivalent(te: seq<TpaState>, t: TpaState) returns (i: nat)
      ensures i <= |te| && (i < |te| ==> te[i].Contents() == t.Contents())
      ensures forall k | 0 <= k < i :: te[k].Contents() != t.Contents()
    {
      i := 0;
      while i < |te|
        invariant 0 <= i <= |te|
        invariant forall k | 0 <= k < i :: te[k].Contents() != t.Contents()
      {
        if te[i].Contents() == t.Contents() { return; }
        i := i + 1;
      }
    }

    /** Tries one implementation, which has the labels in `behind` behind it. */
    method TrySuper(s: PrimNum, behind: TpaState, t: TpaState)
      requires tab.PrimOk(s) && t != behind && LabelsShaped(tab, behind.Contents()) && |t.inst| == tab.maxStates
      modifies t`inst
      ensures t.inst == Relax(tab, old(t.inst), SuperCandidate(tab, s, behind.Contents()))
    {
      var p := tab.prims[s];
      var wo := behind.trans[p.stateOut];
      var noTransition := wo.noTransition;
      if !p.relocatable && !wo.relocatable {
        wo := behind.inst[p.stateOut];
        noTransition := true;
      }
      t.RelaxInst(tab, Candidate(s, wo, p.relocatable, noTransition));
    }

    /** Tries all implementations of `j` instructions. */
    method TrySupers(
      supers: seq<PrimNum>, j: nat, behind: TpaState, t: TpaState, ghost ss: seq<PrimNum>, ghost rest: seq<Labels>)
      requires t != behind && 0 < j <= |rest| && Shaped(tab, rest) && behind.Contents() == rest[j - 1]
      requires Applicable(tab, ss, |rest|)
      requires forall i | 0 <= i < |supers| :: tab.PrimOk(supers[i]) && tab.prims[supers[i]].length == j
      requires t.inst == InstAfter(tab, ss, rest)
      modifies t`inst
      ensures Applicable(tab, ss + supers, |rest|)
      ensures t.inst == InstAfter(tab, ss + supers, rest)
    {
      var n := 0;
      assert ss + supers[..0] == ss;
      while n < |supers|
        invariant 0 <= n <= |supers|
        invariant Applicable(tab, ss + supers[..n], |rest|)
        invariant t.inst == InstAfter(tab, ss + supers[..n], rest)
      {
        TrySuper(supers[n], behind, t);
        InstAfterNext(tab, ss, supers, n, rest);
        n := n + 1;
      }
      assert supers[..n] == supers;
    }

    /** Tries all implementations of `j` instructions after all shorter ones. */
    method TryLength(block: seq<PrimNum>, j: nat, behind: TpaState, t: TpaState, ghost rest: seq<Labels>)
      requires Shaped(tab, rest) && 0 < j <= |rest| == |block|
      requires behind != t && behind.Contents() == rest[j - 1]
      requires t.inst == InstUpTo(tab, block, rest, j - 1)
      modifies t`inst
      ensures t.inst == InstUpTo(tab, block, rest, j)
    {
      var supers := tab.Supers(block[..j]);
      SupersOk(tab, block[..j]);
      TilesStep(tab, block, j);
      TrySupers(supers, j, behind, t, Tiles(tab, block, j - 1), rest);
    }

    /** Tries all implementations of the start of `block`; the states in
        `behind` are those behind 1, 2, ... instructions. */
    method FillInst(block: seq<PrimNum>, behind: seq<TpaState>, t: TpaState, ghost rest: seq<Labels>)
      requires |rest| == |behind| == |block| && Shaped(tab, rest)
      requires forall m | 0 <= m < |behind| :: behind[m] != t && behind[m].Contents() == rest[m]
      requires t.inst == Unlabelled(tab)
      modifies t`inst
      ensures t.inst == InstOf(tab, block, rest)
    {
      TilesStep(tab, block, 0);
      InstAfterNone(tab, rest);
      var j := 1;
      while j <= tab.maxSuper && j <= |block|
        invariant 1 <= j <= Reach(tab, |block|) + 1
        invariant t.inst == InstUpTo(tab, block, rest, j - 1)
        decreases |block| - j
      {
        TryLength(block, j, behind[j - 1], t, rest);
        j := j + 1;
      }
    }

    /** The dynamic-programming step for position `i`. */
    method ComputeState(origs: seq<PrimNum>, i: nat, ts: seq<TpaState>, ghost rest: seq<Labels>) returns (t: TpaState)
      requires i < |origs| && |ts| == |origs| + 1
      requires |rest| == |origs| - i && Shaped(tab, rest)
      requires forall m | i < m <= |origs| :: ts[m].Contents() == rest[m - i - 1]
      ensures fresh(t)
      ensures t.Contents() == LabelsOf(tab, origs[i..], rest)
    {
      t := new TpaState(tab);
      FillInst(origs[i..], ts[i+1..], t, rest);
      t.Transitions(tab);
    }

    /** Positions `i` and up of the block have been labelled with `views`. */
    ghost predicate Labelled(i: nat, ts: seq<TpaState>, views: seq<Labels>)
      reads this, repr
    {
      && i <= |ts| == |views|
      && forall m | i <= m < |views| :: ts[m] in repr && ts[m].Contents() == views[m]
    }

    /** Labels position `i` by dynamic programming. */
    method ComputeAt(origs: seq<PrimNum>, i: nat, ts: seq<TpaState>, ghost views: seq<Labels>) returns (t: TpaState)
      requires Valid() && tab.Compilable(origs) && i < |origs|
      requires views == AllViews(tab, noAutomaton, origs) && Labelled(i + 1, ts, views)
      ensures fresh(t) && t.Contents() == views[i]
    {
      StepViews(tab, noAutomaton, origs, i);
      t := ComputeState(origs, i, ts, views[i+1..]);
      if !noAutomaton {
        t.Normalize();
      }
    }

    /** Fills the slot for `p` in front of `b`. */
    method Remember(p: PrimNum, b: TpaState, t: TpaState)
      requires Valid() && b in repr && t in repr
      requires t.Contents() == Normalized(Step(tab, p, b.Contents()))
      modifies this`tpaTable
      ensures Valid()
    {
      tpaTable := tpaTable[(p, b) := t];
    }

    /** Labels position `i`: by table lookup if this step has been made before,
        by dynamic programming otherwise. */
    method LabelAt(origs: seq<PrimNum>, i: nat, ts: seq<TpaState>, ghost views: seq<Labels>) returns (t: TpaState)
      requires Valid() && tab.Compilable(origs) && i < |origs|
      requires views == AllViews(tab, noAutomaton, origs) && Labelled(i + 1, ts, views)
      modifies this`tpaTable, this`stateTable, this`repr
      ensures Valid() && old(repr) <= repr && fresh(repr - old(repr))
      ensures t in repr && t.Contents() == views[i]
    {
      var behind := ts[i + 1];
      var known := LookupTpa(origs[i], behind);
      if known != null {
        StepView(tab, origs, i, views);
        t := known;
        return;
      }
      t := LabelNew(origs, i, ts, views);
    }

    method LabelNew(origs: seq<PrimNum>, i: nat, ts: seq<TpaState>, ghost views: seq<Labels>) returns (t: TpaState)
      requires Valid() && tab.Compilable(origs) && i < |origs|
      requires views == AllViews(tab, noAutomaton, origs) && Labelled(i + 1, ts, views)
      modifies this`tpaTable, this`stateTable, this`repr
      ensures Valid() && old(repr) <= repr && fresh(repr - old(repr))
      ensures t in repr && t.Contents() == views[i]
    {
      t := ComputeAt(origs, i, ts, views);
      t := LookupTpaState(t);
      if !noAutomaton {
        StepView(tab, origs, i, views);
        Remember(origs[i], ts[i + 1], t);
      }
    }

    /** One iteration of the backward pass. */
    method LabelNext(
      origs: seq<PrimNum>, i: nat, ts: seq<TpaState>, ghost views: seq<Labels>)
      returns (ts': seq<TpaState>)
      requires Valid() && tab.Compilable(origs) && i < |origs|
      requires views == AllViews(tab, noAutomaton, origs) && Labelled(i + 1, ts, views)
      modifies this`tpaTable, this`stateTable, this`repr
      ensures Valid() && old(repr) <= repr && fresh(repr - old(repr))
      ensures Labelled(i, ts', views)
    {
      var t := LabelAt(origs, i, ts, views);
      ts' := ts[i := t];
    }

    /** The backward pass. */
    method LabelBlock(origs: seq<PrimNum>, ghost views: seq<Labels>) returns (ts: seq<TpaState>)
      requires Valid() && tab.Compilable(origs) && views == AllViews(tab, noAutomaton, origs)
      modifies this`tpaTable, this`stateTable, this`repr
      ensures Valid() && old(repr) <= repr && fresh(repr - old(repr))
      ensures Labelled(0, ts, views)
    {
      LastView(tab, noAutomaton, origs);
      var term := termstate;
      ts := seq(|origs| + 1, _ => term);
      var i := |origs|;
      while i > 0
        invariant 0 <= i <= |origs|
        invariant Valid() && old(repr) <= repr && fresh(repr - old(repr))
        invariant Labelled(i, ts, views)
      {
        i := i - 1;
        ts := LabelNext(origs, i, ts, views);
      }
    }

    /** Compiles the selected transition, if any, and returns the state behind it. */
    method EmitMove(block: seq<PrimNum>, t: TpaState, state: nat, ghost before: bool, noTransition: bool)
      returns (code: seq<Emit>, nextstate: nat)
      requires SameChoices(Plain(tab, block), t.Contents()) && Usable(tab, block, state, before, noTransition)
      ensures code == EmittedMove(FirstMove(tab, block, state, noTransition))
      ensures nextstate == Entered(tab, state, FirstMove(tab, block, state, noTransition)) < tab.maxStates
    {
      MoveUsable(tab, block, state, before, noTransition);
      nextstate := state;
      code := [];
      if !noTransition {
        var pt := t.trans[nextstate].inst;
        assert t.trans[nextstate].cost != INF_COST;
        assert tab.prims[pt].stateIn == nextstate;
        code := code + [Transition(pt)];
        nextstate := tab.prims[pt].stateOut;
      }
    }

    /** One step of the forward pass: the transition and the implementation
        that `t` selects. */
    method EmitTile(block: seq<PrimNum>, t: TpaState, state: nat, ghost before: bool, noTransition: bool)
      returns (code: seq<Emit>, w: Waypoint)
      requires block != []
      requires SameChoices(Plain(tab, block), t.Contents()) && Usable(tab, block, state, before, noTransition)
      ensures Implements(tab, block, w.inst) && ContinuesWith(tab, block, w)
      ensures Emitted(Extract(tab, block, state, before, noTransition)) == code + Emitted(ExtractBehind(tab, block, w))
    {
      var nextstate;
      code, nextstate := EmitMove(block, t, state, before, noTransition);
      w := t.inst[nextstate];
      TileEmitted(tab, block, state, before, noTransition, w);
      assert tab.prims[w.inst].stateIn == nextstate;
      assert w.cost != INF_COST;
      code := code + [Instruction(w.inst)];
    }

    /** The forward pass at the first position behind a tile. */
    method EmitAt(
      origs: seq<PrimNum>, block: seq<PrimNum>, t: TpaState, i: nat, state: nat, ghost before: bool,
      noTransition: bool, code: seq<Emit>)
      returns (code': seq<Emit>, w: Waypoint)
      requires i < |origs| && block == origs[i..] && SameChoices(Plain(tab, block), t.Contents())
      requires Pending(tab, origs, i, state, before, noTransition, code)
      ensures PendingBehind(tab, origs, block, i, w, code')
    {
      var more;
      more, w := EmitTile(block, t, state, before, noTransition);
      code' := code + more;
      PendingStep(tab, origs, block, i, state, before, noTransition, code, more, code', w);
    }

    /** The forward pass behind the last tile. */
    method EmitEnd(
      origs: seq<PrimNum>, t: TpaState, state: nat, ghost before: bool, noTransition: bool, code: seq<Emit>)
      returns (code': seq<Emit>)
      requires SameChoices(Plain(tab, []), t.Contents())
      requires Pending(tab, origs, |origs|, state, before, noTransition, code)
      ensures code' == Emitted(BlockTiling(tab, origs))
    {
      PendingEnd(tab, origs, state, before, noTransition, code);
      var more, nextstate := EmitMove([], t, state, before, noTransition);
      assert nextstate == CANONICAL_STATE;
      code' := code + more;
    }

    /** One iteration of the forward pass that compiles something. */
    method EmitNext(
      origs: seq<PrimNum>, block: seq<PrimNum>, t: TpaState, i: nat, state: nat, ghost before: bool, noTransition: bool,
      code: seq<Emit>)
      returns (code': seq<Emit>, nextdyn: nat, nextstate: nat, ghost before': bool, noTransition': bool)
      requires i < |origs| && block == origs[i..] && SameChoices(Plain(tab, block), t.Contents())
      requires Pending(tab, origs, i, state, before, noTransition, code)
      ensures i < nextdyn && Pending(tab, origs, nextdyn, nextstate, before', noTransition', code')
    {
      var w;
      code', w := EmitAt(origs, block, t, i, state, before, noTransition, code);
      noTransition' := w.noTransition;
      nextstate := tab.prims[w.inst].stateOut;
      nextdyn := i + tab.prims[w.inst].length;
      before' := tab.prims[w.inst].relocatable;
    }

    /** The forward pass: returns what is compiled. */
    method EmitBlock(origs: seq<PrimNum>, ts: seq<TpaState>, ghost views: seq<Labels>) returns (code: seq<Emit>)
      requires tab.Compilable(origs)
      requires views == AllViews(tab, noAutomaton, origs) && Labelled(0, ts, views)
      ensures code == Emitted(BlockTiling(tab, origs))
      ensures BlockCode(tab, origs, code) && CodeCost(tab, code) == StartCost(tab, origs)
      ensures Lossless(tab, origs) ==> Cheapest(tab, origs, code)
    {
      BlockEmitted(tab, origs);
      code := [];
      var nextdyn, nextstate := 0, CANONICAL_STATE;
      var first := ts[0].trans[nextstate];
      var noTransition := !first.relocatable || first.noTransition;
      ghost var before := false;
      StartView(tab, noAutomaton, origs);
      var i := 0;
      while i < |origs|
        invariant 0 <= i <= nextdyn <= |origs|
        invariant Pending(tab, origs, nextdyn, nextstate, before, noTransition, code)
      {
        if i == nextdyn {
          ChoicesAt(tab, noAutomaton, origs, i);
          code, nextdyn, nextstate, before, noTransition :=
            EmitNext(origs, origs[i..], ts[i], i, nextstate, before, noTransition, code);
        }
        i := i + 1;
      }
      ChoicesAtEnd(tab, noAutomaton, origs);
      code := EmitEnd(origs, ts[|origs|], nextstate, before, noTransition, code);
    }

    /** Whatever blocks have been compiled before, and whether or not the
        automaton is on, the plain dynamic program's tiling is compiled.  So the
        code runs from the canonical state to the canonical state, implements the
        block, and costs what the first label says: the minimum over all code
        that does, in a lossless block. */
    method OptimizeRewrite(origs: seq<PrimNum>) returns (code: seq<Emit>)
      requires Valid() && tab.Compilable(origs)
      modifies this`tpaTable, this`stateTable, this`repr
      ensures Valid() && old(repr) <= repr && fresh(repr - old(repr))
      ensures code == if origs == [] then [] else Emitted(BlockTiling(tab, origs))
      ensures BlockCode(tab, origs, code) && CodeCost(tab, code) == StartCost(tab, origs)
      ensures Lossless(tab, origs) ==> Cheapest(tab, origs, code)
    {
      if |origs| == 0 {
        NothingEmitted(tab);
        return [];
      }
      ghost var views := AllViews(tab, noAutomaton, origs);
      var ts := LabelBlock(origs, views);
      code := EmitBlock(origs, ts, views);
    }
  }

  /** The forward pass can go on behind the implementation chosen by `w`. */
  ghost predicate ContinuesWith(tab: Tables, block: seq<PrimNum>, w: Waypoint) {
    && Implements(tab, block, w.inst)
    && var p := tab.prims[w.inst];
    Usable(tab, block[p.length..], p.stateOut, p.relocatable, w.noTransition)
  }

  function ExtractBehind(tab: Tables, block: seq<PrimNum>, w: Waypoint): Tiling
    requires ContinuesWith(tab, block, w)
  {
    var p := tab.prims[w.inst];
    Extract(tab, block[p.length..], p.stateOut, p.relocatable, w.noTransition)
  }

  lemma {:induction false} TileEmitted(
    tab: Tables, block: seq<PrimNum>, state: nat, before: bool, noTransition: bool, w: Waypoint)
    requires block != [] && Usable(tab, block, state, before, noTransition)
    requires var mid := Entered(tab, state, FirstMove(tab, block, state, noTransition));
             mid < tab.maxStates && var v := Plain(tab, block).inst[mid];
               w == v.(cost := w.cost) && (w.cost == INF_COST <==> v.cost == INF_COST)
    ensures ContinuesWith(tab, block, w) && w.cost != INF_COST
    ensures tab.prims[w.inst].stateIn == Entered(tab, state, FirstMove(tab, block, state, noTransition))
    ensures Emitted(Extract(tab, block, state, before, noTransition)) ==
            EmittedMove(FirstMove(tab, block, state, noTransition)) + [Instruction(w.inst)]
              + Emitted(ExtractBehind(tab, block, w))
  {
    assert Extract(tab, block, state, before, noTransition) == ExtractHere(tab, block, state, before, noTransition);
    assert Emitted(Extract(tab, block, state, before, noTransition))
           == EmittedHere(Extract(tab, block, state, before, noTransition));
    MoveUsable(tab, block, state, before, noTransition);
    TileUsable(tab, block, Entered(tab, state, FirstMove(tab, block, state, noTransition)));
  }

  /** The forward pass has emitted `code` for the first `i` instructions, and
      following the labels from here on completes the tiling of the block. */
  ghost predicate Pending(
    tab: Tables, origs: seq<PrimNum>, i: nat, state: nat, before: bool, noTransition: bool, code: seq<Emit>) {
    && tab.Compilable(origs)
    && i <= |origs|
    && Usable(tab, origs[i..], state, before, noTransition)
    && code + Emitted(Extract(tab, origs[i..], state, before, noTransition)) == Emitted(BlockTiling(tab, origs))
  }

  /** The same behind the implementation chosen by `w`. */
  ghost predicate PendingBehind(
    tab: Tables, origs: seq<PrimNum>, block: seq<PrimNum>, i: nat, w: Waypoint, code: seq<Emit>) {
    && Implements(tab, block, w.inst)
    && var p := tab.prims[w.inst];
    Pending(tab, origs, i + p.length, p.stateOut, p.relocatable, w.noTransition, code)
  }

  lemma {:induction false} PendingStep(
    tab: Tables, origs: seq<PrimNum>, block: seq<PrimNum>, i: nat, state: nat, before: bool, noTransition: bool,
    code: seq<Emit>, more: seq<Emit>, code': seq<Emit>, w: Waypoint)
    requires i < |origs| && block == origs[i..] && Pending(tab, origs, i, state, before, noTransition, code)
    requires ContinuesWith(tab, block, w) && code' == code + more
    requires Emitted(Extract(tab, block, state, before, noTransition)) == more + Emitted(ExtractBehind(tab, block, w))
    ensures PendingBehind(tab, origs, block, i, w, code')
  {
    assert block[tab.prims[w.inst].length..] == origs[i + tab.prims[w.inst].length..];
    Assoc(code, more, Emitted(ExtractBehind(tab, block, w)));
  }

  lemma {:induction false} PendingEnd(
    tab: Tables, origs: seq<PrimNum>, state: nat, before: bool, noTransition: bool, code: seq<Emit>)
    requires Pending(tab, origs, |origs|, state, before, noTransition, code)
    ensures origs[|origs|..] == [] && Usable(tab, [], state, before, noTransition)
    ensures Entered(tab, state, FirstMove(tab, [], state, noTransition)) == CANONICAL_STATE
    ensures code + EmittedMove(FirstMove(tab, [], state, noTransition)) == Emitted(BlockTiling(tab, origs))
  {
    assert origs[|origs|..] == [];
    EndsCanonical(tab, state, before, noTransition);
  }

  lemma {:induction false} EndsCanonical(tab: Tables, state: nat, before: bool, noTransition: bool)
    requires Usable(tab, [], state, before, noTransition)
    ensures Entered(tab, state, FirstMove(tab, [], state, noTransition)) == CANONICAL_STATE
    ensures Emitted(Extract(tab, [], state, before, noTransition))
            == EmittedMove(FirstMove(tab, [], state, noTransition))
  {
    assert Extract(tab, [], state, before, noTransition) == ExtractHere(tab, [], state, before, noTransition);
    assert Emitted(Extract(tab, [], state, before, noTransition))
           == EmittedHere(Extract(tab, [], state, before, noTransition));
    MoveUsable(tab, [], state, before, noTransition);
    PlainEmpty(tab);
  }

  /** What is stored for each position of a block. */
  ghost function AllViews(tab: Tables, noAutomaton: bool, origs: seq<PrimNum>): (r: seq<Labels>)
    ensures |r| == |origs| + 1 && Shaped(tab, r)
    decreases |origs|, 1
  {
    ViewsFrom(tab, noAutomaton, origs)
  }

  ghost function ViewsFrom(tab: Tables, noAutomaton: bool, origs: seq<PrimNum>): (r: seq<Labels>)
    ensures |r| == |origs| + 1 && Shaped(tab, r)
    decreases |origs|, 0
  {
    if origs == [] then [View(tab, noAutomaton, origs)]
    else
      var rest := AllViews(tab, noAutomaton, origs[1..]);
      ConsShaped(tab, View(tab, noAutomaton, origs), rest);
      [View(tab, noAutomaton, origs)] + rest
  }

  lemma {:induction false} ViewAt(tab: Tables, noAutomaton: bool, origs: seq<PrimNum>, i: nat)
    requires tab.Compilable(origs) && i <= |origs|
    ensures AllViews(tab, noAutomaton, origs)[i] == View(tab, noAutomaton, origs[i..])
    ensures tab.Compilable(origs[i..])
  {
    assert AllViews(tab, noAutomaton, origs) == ViewsFrom(tab, noAutomaton, origs);
    if i == 0 {
      assert origs[0..] == origs;
    } else {
      ViewAt(tab, noAutomaton, origs[1..], i - 1);
      assert origs[1..][i-1..] == origs[i..];
    }
  }

  lemma {:induction false} LastView(tab: Tables, noAutomaton: bool, origs: seq<PrimNum>)
    requires tab.Compilable(origs)
    ensures AllViews(tab, noAutomaton, origs)[|origs|] == Plain(tab, [])
  {
    ViewAt(tab, noAutomaton, origs, |origs|);
    assert origs[|origs|..] == [];
    TermNormalized(tab);
  }

  lemma {:induction false} PlainViews(tab: Tables, origs: seq<PrimNum>)
    requires tab.Compilable(origs)
    ensures AllViews(tab, true, origs) == Labelling(tab, origs)
  {
    forall k | 0 <= k <= |origs| ensures AllViews(tab, true, origs)[k] == Labelling(tab, origs)[k] {
      ViewAt(tab, true, origs, k);
      LabellingSuffix(tab, origs, k);
    }
  }

  /** Each stored entry follows from those behind it: by a labelling step, and
      by normalisation if the automaton is on. */
  lemma {:induction false} StepViews(tab: Tables, noAutomaton: bool, origs: seq<PrimNum>, i: nat)
    requires tab.Compilable(origs) && i < |origs|
    requires noAutomaton || tab.SingleOnly()
    ensures var views := AllViews(tab, noAutomaton, origs);
            var ls := LabelsOf(tab, origs[i..], views[i+1..]);
            && views[i] == (if noAutomaton then ls else Normalized(ls))
            && (!noAutomaton ==> ls == Step(tab, origs[i], views[i+1]))
  {
    var views := AllViews(tab, noAutomaton, origs);
    ViewAt(tab, noAutomaton, origs, i);
    ViewAt(tab, noAutomaton, origs, i + 1);
    var block := origs[i..];
    assert block[0] == origs[i] && block[1..] == origs[i+1..];
    if noAutomaton {
      PlainViews(tab, origs);
      LabellingSuffix(tab, origs, i + 1);
      LabellingTail(tab, block);
    } else {
      SingleStepOf(tab, block, views[i+1..]);
      NormalizedStep(tab, block);
    }
  }

  lemma {:induction false} StepView(tab: Tables, origs: seq<PrimNum>, i: nat, views: seq<Labels>)
    requires tab.Compilable(origs) && i < |origs| && tab.SingleOnly()
    requires views == AllViews(tab, false, origs)
    ensures views[i] == Normalized(Step(tab, origs[i], views[i + 1]))
  {
    StepViews(tab, false, origs, i);
  }

  lemma {:induction false} ViewSame(tab: Tables, noAutomaton: bool, origs: seq<PrimNum>)
    requires tab.Compilable(origs)
    ensures SameChoices(Plain(tab, origs), View(tab, noAutomaton, origs))
  {
    NormalizedSameChoices(tab, origs);
  }

  lemma {:induction false} ChoicesAt(tab: Tables, noAutomaton: bool, origs: seq<PrimNum>, i: nat)
    requires tab.Compilable(origs) && i <= |origs|
    ensures SameChoices(Plain(tab, origs[i..]), AllViews(tab, noAutomaton, origs)[i])
    ensures tab.Compilable(origs[i..])
  {
    ViewAt(tab, noAutomaton, origs, i);
    ViewSame(tab, noAutomaton, origs[i..]);
  }

  lemma {:induction false} ChoicesAtEnd(tab: Tables, noAutomaton: bool, origs: seq<PrimNum>)
    requires tab.Compilable(origs)
    ensures SameChoices(Plain(tab, []), AllViews(tab, noAutomaton, origs)[|origs|])
  {
    ChoicesAt(tab, noAutomaton, origs, |origs|);
    assert origs[|origs|..] == [];
  }

  lemma {:induction false} StartView(tab: Tables, noAutomaton: bool, origs: seq<PrimNum>)
    requires tab.Compilable(origs)
    ensures var w := AllViews(tab, noAutomaton, origs)[0].trans[CANONICAL_STATE];
            Pending(tab, origs, 0, CANONICAL_STATE, false, !w.relocatable || w.noTransition, [])
  {
    ViewAt(tab, noAutomaton, origs, 0);
    assert origs[0..] == origs;
    ViewSame(tab, noAutomaton, origs);
    StartUsable(tab, origs);
  }
}
