/** The code that `optimize_rewrite` compiles, as a run through the states of
    the stack cache: what the sequence of primitives must be like, whatever
    labels or tilings led to it. */
module Emission {
  import opened Basics
  import opened SuperTables
  import opened Tilings
  import opened Extraction
  import opened Optimality

  /** A primitive passed to `compile_prim_dyn`. */
  datatype Emit = Transition(p: PrimNum) | Instruction(p: PrimNum)

  /** `code` can run in state `k` and does what `origs` does: each primitive
      starts in the state that the one in front of it ends in, the instructions
      implement the block piece by piece, and the last state is the canonical
      one.  At most one transition, from the list of transitions, stands between
      two instructions or at an end, and one of its neighbours is relocatable.
      `before` says whether the code in front of `code` is, and `moved` whether
      it ends with a transition. */
  ghost predicate Runs(tab: Tables, origs: seq<PrimNum>, k: nat, before: bool, moved: bool, code: seq<Emit>)
    decreases |code|, 1
  {
    if code == [] then origs == [] && k == CANONICAL_STATE && (moved ==> before)
    else RunsOn(tab, origs, k, before, moved, code[0], code[1..])
  }

  ghost predicate RunsOn(
    tab: Tables, origs: seq<PrimNum>, k: nat, before: bool, moved: bool, e: Emit, rest: seq<Emit>)
    decreases |rest| + 1, 0
  {
    && e.p < |tab.prims|
    && var p := tab.prims[e.p];
    && p.stateIn == k
    && match e
       case Transition(t) =>
         !moved && t in tab.transitions && Runs(tab, origs, p.stateOut, before, true, rest)
       case Instruction(s) =>
         && 0 < p.length <= |origs| && s in tab.Supers(origs[..p.length])
         && (moved ==> before || p.relocatable)
         && Runs(tab, origs[p.length..], p.stateOut, p.relocatable, false, rest)
  }

  /** The costs of all primitives. */
  function CodeCost(tab: Tables, code: seq<Emit>): int
    decreases |code|
  {
    if code == [] then 0 else PrimCost(tab, code[0].p) + CodeCost(tab, code[1..])
  }

  /** The code for a whole block. */
  ghost predicate BlockCode(tab: Tables, origs: seq<PrimNum>, code: seq<Emit>) {
    Runs(tab, origs, CANONICAL_STATE, false, false, code)
  }

  // ----- tilings as code -----

  function EmittedMove(t: Option<PrimNum>): seq<Emit> {
    match t
    case None => []
    case Some(p) => [Transition(p)]
  }

  /** The primitives for a tiling. */
  function Emitted(T: Tiling): seq<Emit>
    decreases T, 1
  {
    EmittedHere(T)
  }

  function EmittedHere(T: Tiling): seq<Emit>
    decreases T, 0
  {
    match T
    case End(t) => EmittedMove(t)
    case Tile(t, s, rest) => EmittedMove(t) + [Instruction(s)] + Emitted(rest)
  }

  lemma {:induction false} EmittedTile(t: Option<PrimNum>, s: PrimNum, rest: Tiling)
    ensures Emitted(Tile(t, s, rest)) == EmittedMove(t) + ([Instruction(s)] + Emitted(rest))
  {
    assert Emitted(Tile(t, s, rest)) == EmittedHere(Tile(t, s, rest));
    Assoc(EmittedMove(t), [Instruction(s)], Emitted(rest));
  }

  lemma {:induction false} EmittedEnd(t: Option<PrimNum>)
    ensures Emitted(End(t)) == EmittedMove(t) + []
  {
    assert Emitted(End(t)) == EmittedHere(End(t));
  }

  lemma {:induction false} RunsCons(
    tab: Tables, origs: seq<PrimNum>, k: nat, before: bool, moved: bool, e: Emit, rest: seq<Emit>)
    ensures Runs(tab, origs, k, before, moved, [e] + rest) <==> RunsOn(tab, origs, k, before, moved, e, rest)
    ensures CodeCost(tab, [e] + rest) == PrimCost(tab, e.p) + CodeCost(tab, rest)
  {
    assert ([e] + rest)[1..] == rest;
  }

  /** An optional transition in front of code. */
  lemma {:induction false} MoveRuns(
    tab: Tables, origs: seq<PrimNum>, k: nat, before: bool, t: Option<PrimNum>, mid: nat, rest: seq<Emit>)
    requires Moves(tab, k, t, mid) && Runs(tab, origs, mid, before, t.Some?, rest)
    ensures Runs(tab, origs, k, before, false, EmittedMove(t) + rest)
    ensures CodeCost(tab, EmittedMove(t) + rest) == MoveCost(tab, t) + CodeCost(tab, rest)
  {
    match t
    case None => assert EmittedMove(t) + rest == rest;
    case Some(p) => RunsCons(tab, origs, k, before, false, Transition(p), rest);
  }

  /** The code of a valid tiling runs and costs what the tiling costs. */
  lemma {:induction false} EmittedRuns(tab: Tables, origs: seq<PrimNum>, k: nat, before: bool, T: Tiling)
    requires Valid(tab, origs, k, before, T)
    ensures Runs(tab, origs, k, before, false, Emitted(T)) && CodeCost(tab, Emitted(T)) == Cost(tab, T)
    decreases T
  {
    match T
    case End(t) =>
      MoveRuns(tab, origs, k, before, t, CANONICAL_STATE, []);
      EmittedEnd(t);
    case Tile(t, s, rest) =>
      var p := tab.prims[s];
      EmittedRuns(tab, origs[p.length..], p.stateOut, p.relocatable, rest);
      RunsCons(tab, origs, p.stateIn, before, t.Some?, Instruction(s), Emitted(rest));
      MoveRuns(tab, origs, k, before, t, p.stateIn, [Instruction(s)] + Emitted(rest));
      EmittedTile(t, s, rest);
  }

  /** All code that runs is the code of a tiling. */
  lemma {:induction false} RunsTiling(tab: Tables, origs: seq<PrimNum>, k: nat, before: bool, code: seq<Emit>)
    returns (T: Tiling)
    requires Runs(tab, origs, k, before, false, code)
    ensures Valid(tab, origs, k, before, T) && Emitted(T) == code && Cost(tab, T) == CodeCost(tab, code)
    decreases |code|, 1
  {
    if code != [] && code[0].Transition? {
      T := MovedTiling(tab, origs, k, before, Some(code[0].p), tab.prims[code[0].p].stateOut, code[1..]);
      assert [code[0]] + code[1..] == code;
    } else {
      T := MovedTiling(tab, origs, k, before, None, k, code);
      assert [] + code == code;
    }
  }

  lemma {:induction false} MovedTiling(
    tab: Tables, origs: seq<PrimNum>, k: nat, before: bool, t: Option<PrimNum>, mid: nat, code: seq<Emit>)
    returns (T: Tiling)
    requires Moves(tab, k, t, mid) && Runs(tab, origs, mid, before, t.Some?, code)
    requires code != [] && code[0].Transition? ==> t.Some?
    ensures Valid(tab, origs, k, before, T) && Emitted(T) == EmittedMove(t) + code
    ensures Cost(tab, T) == MoveCost(tab, t) + CodeCost(tab, code)
    decreases |code|, 0
  {
    if code == [] {
      T := End(t);
      EmittedEnd(t);
    } else {
      var p := tab.prims[code[0].p];
      var rest := RunsTiling(tab, origs[p.length..], p.stateOut, p.relocatable, code[1..]);
      T := Tile(t, code[0].p, rest);
      EmittedTile(t, code[0].p, rest);
      assert [code[0]] + code[1..] == code;
    }
  }

  /** The code that runs is the code of the valid tilings. */
  lemma {:induction false} RunsIff(tab: Tables, origs: seq<PrimNum>, code: seq<Emit>)
    ensures BlockCode(tab, origs, code) <==>
            exists T :: Valid(tab, origs, CANONICAL_STATE, false, T) && Emitted(T) == code
  {
    if BlockCode(tab, origs, code) {
      var T := RunsTiling(tab, origs, CANONICAL_STATE, false, code);
    }
    forall T | Valid(tab, origs, CANONICAL_STATE, false, T) && Emitted(T) == code
      ensures BlockCode(tab, origs, code)
    {
      EmittedRuns(tab, origs, CANONICAL_STATE, false, T);
    }
  }

  // ----- the code of a block -----

  /** The label that the forward pass starts with. */
  function StartCost(tab: Tables, origs: seq<PrimNum>): int {
    LabelCost(tab, origs, CANONICAL_STATE, StartsWithout(tab, origs))
  }

  /** No code for the block is cheaper. */
  ghost predicate Cheapest(tab: Tables, origs: seq<PrimNum>, code: seq<Emit>) {
    forall other :: BlockCode(tab, origs, other) ==> CodeCost(tab, code) <= CodeCost(tab, other)
  }

  /** What is compiled for a block runs and costs what its first label says; in
      a lossless block nothing else that runs is cheaper. */
  lemma {:induction false} BlockEmitted(tab: Tables, origs: seq<PrimNum>)
    requires tab.Compilable(origs)
    ensures var code := Emitted(BlockTiling(tab, origs));
            && BlockCode(tab, origs, code) && CodeCost(tab, code) == StartCost(tab, origs)
            && (Lossless(tab, origs) ==> Cheapest(tab, origs, code))
  {
    var T := BlockTiling(tab, origs);
    StartUsable(tab, origs);
    ExtractSound(tab, origs, CANONICAL_STATE, false, StartsWithout(tab, origs));
    EmittedRuns(tab, origs, CANONICAL_STATE, false, T);
    if Lossless(tab, origs) {
      forall other | BlockCode(tab, origs, other) ensures CodeCost(tab, Emitted(T)) <= CodeCost(tab, other) {
        var T' := RunsTiling(tab, origs, CANONICAL_STATE, false, other);
        BlockTilingOptimal(tab, origs, T');
      }
    }
  }

  /** An empty block needs no code. */
  lemma {:induction false} NothingEmitted(tab: Tables)
    ensures BlockCode(tab, [], []) && StartCost(tab, []) == 0 && Cheapest(tab, [], [])
  {
    PlainEmpty(tab);
    TransLabel(tab, [], CANONICAL_STATE);
    forall other | BlockCode(tab, [], other) ensures 0 <= CodeCost(tab, other) {
      var T := RunsTiling(tab, [], CANONICAL_STATE, false, other);
      TilingCostBound(tab, [], CANONICAL_STATE, false, T);
    }
  }
}
