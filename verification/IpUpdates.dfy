/** Updates of the instruction pointer that are put off until a primitive needs
    it (engine/main.c). */
module IpUpdates {
  import opened Basics

  /** The range of the ip-update primitives. */
  datatype Limits = Limits(min: int, max: int)

  predicate LimitsOk(lim: Limits) {
    lim.min < 0 < lim.max
  }

  // ----- one update -----

  /** One step of the loop in `append_ip_update1`. */
  function Clamp(lim: Limits, diff: int): int {
    if diff > lim.max then lim.max else if diff < lim.min then lim.min else diff
  }

  /** The updates that bring a difference into [l, u]. */
  function Steps(lim: Limits, diff: int, l: int, u: int): (ks: seq<int>)
    requires LimitsOk(lim) && l <= 0 <= u
    decreases if diff < 0 then -diff else diff
  {
    if l <= diff <= u then [] else [Clamp(lim, diff)] + Steps(lim, diff - Clamp(lim, diff), l, u)
  }

  function Sum(ks: seq<int>): int {
    if ks == [] then 0 else ks[0] + Sum(ks[1..])
  }

  ghost predicate AllWithin(lim: Limits, ks: seq<int>) {
    forall i | 0 <= i < |ks| :: lim.min <= ks[i] <= lim.max
  }

  lemma {:induction false} StepsOk(lim: Limits, diff: int, l: int, u: int)
    requires LimitsOk(lim) && l <= 0 <= u
    ensures var ks := Steps(lim, diff, l, u); AllWithin(lim, ks) && l <= diff - Sum(ks) <= u
    decreases if diff < 0 then -diff else diff
  {
    if diff < l || diff > u {
      StepsOk(lim, diff - Clamp(lim, diff), l, u);
    }
  }

  lemma {:induction false} SumBound(lim: Limits, ks: seq<int>)
    requires LimitsOk(lim) && AllWithin(lim, ks)
    ensures |ks| * lim.min <= Sum(ks) <= |ks| * lim.max
  {
    if ks != [] {
      SumBound(lim, ks[1..]);
      assert |ks| * lim.max == (|ks| - 1) * lim.max + lim.max;
      assert |ks| * lim.min == (|ks| - 1) * lim.min + lim.min;
    }
  }

  /** As many full steps as are needed on either side. */
  lemma {:induction false} StepsCount(lim: Limits, diff: int, l: int, u: int, n: nat)
    requires LimitsOk(lim) && l <= 0 <= u && l + n * lim.min <= diff <= u + n * lim.max
    ensures |Steps(lim, diff, l, u)| <= n
    decreases n
  {
    if diff < l || diff > u {
      assert n > 0;
      assert n * lim.max == (n - 1) * lim.max + lim.max;
      assert n * lim.min == (n - 1) * lim.min + lim.min;
      ProductSigns(lim, n - 1);
      StepsCount(lim, diff - Clamp(lim, diff), l, u, n - 1);
    }
  }

  lemma {:induction false} ProductSigns(lim: Limits, n: nat)
    requires LimitsOk(lim)
    ensures n * lim.min <= 0 <= n * lim.max
  {
  }

  /** No other sequence of updates is shorter. */
  lemma {:induction false} FewestUpdates(lim: Limits, diff: int, l: int, u: int, ks: seq<int>)
    requires LimitsOk(lim) && l <= 0 <= u && AllWithin(lim, ks) && l <= diff - Sum(ks) <= u
    ensures |Steps(lim, diff, l, u)| <= |ks|
  {
    SumBound(lim, ks);
    StepsCount(lim, diff, l, u, |ks|);
  }

  // ----- primitives -----

  datatype Jump = NoJump | Always(target: int) | If(target: int)

  /** A primitive that covers the threaded code from `start` to `end`.
      `maxOffset` is the largest offset of its variants. */
  datatype Tile = Tile(start: int, end: int, reloc: bool, imm: bool, superend: bool, ipDead: bool, maxOffset: nat,
    jump: Jump) {
    predicate NeedsIp() { imm || (superend && !ipDead) }
  }

  /** What the tables guarantee: branches have an operand; conditional ones do
      not end a dynamic superinstruction (SUPER_CONTINUE). */
  predicate TileOk(t: Tile) {
    && t.start < t.end
    && (t.jump.Always? ==> t.imm && t.superend)
    && (t.jump.If? ==> t.imm && !t.superend)
  }

  // ----- native code -----

  /** Native code: an ip update, a primitive in the variant for an offset, a
      conditional branch to where ip points, a dispatch, and a primitive that
      runs in the engine.  What follows the last two is entered with the given
      ip. */
  datatype Item = Update(k: int) | Prim(t: Tile, offset: int) | ToIp(t: Tile) | Dispatch(next: int) | Static(next: int)

  /** The ip register; `Elsewhere` if a primitive has set it. */
  datatype Ip = At(ip: int) | Elsewhere

  /** What a primitive does with ip: reads operands before `end`, or goes on at
      `target`, always or on a condition. */
  datatype Effect = Reads(end: int) | Goes(target: int) | MayGo(target: int)

  function IpStep(i: Item, before: Ip): Ip {
    match i
    case Update(k) => if before.At? then At(before.ip + k) else Elsewhere
    case Prim(t, o) => if t.superend then Elsewhere else before
    case ToIp(t) => before
    case Dispatch(next) => At(next)
    case Static(next) => At(next)
  }

  function IpAfter(code: seq<Item>, ip: Ip): Ip
    decreases |code|, 1
  {
    if code == [] then ip else IpAfterLast(code, ip)
  }

  function IpAfterLast(code: seq<Item>, ip: Ip): Ip
    requires code != []
    decreases |code|, 0
  {
    IpStep(code[|code|-1], IpAfter(code[..|code|-1], ip))
  }

  function PrimEffect(t: Tile, seen: int): seq<Effect> {
    if t.jump.Always? && seen == t.end then [Goes(t.jump.target)]
    else if t.jump.If? && seen == t.end then [MayGo(t.jump.target)]
    else if t.NeedsIp() then [Reads(seen)]
    else []
  }

  function ItemEffect(i: Item, before: Ip): seq<Effect> {
    if before.Elsewhere? then []
    else
      match i
      case Update(_) => []
      case Prim(t, o) => PrimEffect(t, before.ip + o)
      case ToIp(t) => [MayGo(before.ip)]
      case Dispatch(_) => [Goes(before.ip)]
      case Static(_) => []
  }

  /** All that code does with ip. */
  function Effects(code: seq<Item>, ip: Ip): seq<Effect>
    decreases |code|, 1
  {
    if code == [] then [] else EffectsLast(code, ip)
  }

  function EffectsLast(code: seq<Item>, ip: Ip): seq<Effect>
    requires code != []
    decreases |code|, 0
  {
    var shorter := code[..|code|-1];
    Effects(shorter, ip) + ItemEffect(code[|code|-1], IpAfter(shorter, ip))
  }

  lemma {:induction false} RunOne(i: Item, ip: Ip)
    ensures IpAfter([i], ip) == IpStep(i, ip) && Effects([i], ip) == ItemEffect(i, ip)
  {
    assert [i][..0] == [];
    assert IpAfterLast([i], ip) == IpStep(i, ip);
    assert EffectsLast([i], ip) == [] + ItemEffect(i, ip);
  }

  lemma {:induction false} RunLast(code: seq<Item>, i: Item, ip: Ip)
    ensures IpAfter(code + [i], ip) == IpAfter([i], IpAfter(code, ip))
    ensures Effects(code + [i], ip) == Effects(code, ip) + Effects([i], IpAfter(code, ip))
  {
    RunOne(i, IpAfter(code, ip));
    assert (code + [i])[..|code|] == code;
    assert IpAfterLast(code + [i], ip) == IpStep(i, IpAfter(code, ip));
    assert EffectsLast(code + [i], ip) == Effects(code, ip) + ItemEffect(i, IpAfter(code, ip));
  }

  lemma {:induction false} RunNone(ip: Ip)
    ensures IpAfter([], ip) == ip && Effects([], ip) == []
  {
  }

  lemma {:induction false} RunAppend(code: seq<Item>, more: seq<Item>, ip: Ip)
    ensures IpAfter(code + more, ip) == IpAfter(more, IpAfter(code, ip))
    ensures Effects(code + more, ip) == Effects(code, ip) + Effects(more, IpAfter(code, ip))
  {
    if more == [] {
      assert code + more == code;
      RunNone(IpAfter(code, ip));
    } else {
      var shorter, i := more[..|more| - 1], more[|more| - 1];
      assert shorter + [i] == more;
      RunAppend(code, shorter, ip);
      RunAppendLast(code, shorter, i, ip);
    }
  }

  lemma {:induction false} RunAppendLast(code: seq<Item>, shorter: seq<Item>, i: Item, ip: Ip)
    requires IpAfter(code + shorter, ip) == IpAfter(shorter, IpAfter(code, ip))
    requires Effects(code + shorter, ip) == Effects(code, ip) + Effects(shorter, IpAfter(code, ip))
    ensures IpAfter(code + (shorter + [i]), ip) == IpAfter(shorter + [i], IpAfter(code, ip))
    ensures Effects(code + (shorter + [i]), ip) == Effects(code, ip) + Effects(shorter + [i], IpAfter(code, ip))
  {
    var mid := IpAfter(code, ip);
    Assoc(code, shorter, [i]);
    RunLast(code + shorter, i, ip);
    RunLast(shorter, i, mid);
    Assoc(Effects(code, ip), Effects(shorter, mid), Effects([i], IpAfter(shorter, mid)));
  }

  function Updates(ks: seq<int>): seq<Item> {
    seq(|ks|, i requires 0 <= i < |ks| => Update(ks[i]))
  }

  lemma {:induction false} RunUpdates(ks: seq<int>, ip: int)
    ensures IpAfter(Updates(ks), At(ip)) == At(ip + Sum(ks)) && Effects(Updates(ks), At(ip)) == []
    decreases |ks|
  {
    if ks != [] {
      var k, rest := ks[0], ks[1..];
      RunUpdates(rest, ip + k);
      RunOne(Update(k), At(ip));
      assert Updates(ks) == [Update(k)] + Updates(rest);
      RunAppend([Update(k)], Updates(rest), At(ip));
      assert [] + Effects(Updates(rest), At(ip + k)) == [];
    }
  }

  // ----- where control goes -----

  /** Behind code: the engine goes on, native code falls through to what follows,
      a primitive has set ip and only a dispatch may follow; or something has gone
      wrong: native code has run into a primitive of the engine, or past a
      primitive that sets ip. */
  datatype Flow = Stopped | Running | Left | Lost

  function FlowStep(i: Item, before: Flow): Flow {
    match i
    case Update(_) => if before.Left? || before.Lost? then Lost else Running
    case Prim(t, _) => if before.Left? || before.Lost? then Lost else if t.superend then Left else Running
    case ToIp(_) => if before.Left? || before.Lost? then Lost else Running
    case Dispatch(_) => if before.Lost? then Lost else Stopped
    case Static(_) => if before.Stopped? then Stopped else Lost
  }

  function FlowAfter(code: seq<Item>): Flow
    decreases |code|, 1
  {
    if code == [] then Stopped else FlowAfterLast(code)
  }

  function FlowAfterLast(code: seq<Item>): Flow
    requires code != []
    decreases |code|, 0
  {
    FlowStep(code[|code| - 1], FlowAfter(code[..|code| - 1]))
  }

  /** Native code never runs into a primitive of the engine: one that is not
      relocatable comes first, or behind another one or a dispatch.  Behind a
      primitive that sets ip there is a dispatch. */
  ghost predicate WellLinked(code: seq<Item>) {
    && (forall i {:trigger code[i]} | 0 < i < |code| && code[i].Static? :: code[i - 1].Static? || code[i - 1].Dispatch?)
    && (forall i {:trigger code[i]} | 0 <= i < |code| - 1 && code[i].Prim? && code[i].t.superend ::
          code[i + 1].Dispatch?)
  }

  lemma {:induction false} FlowLast(code: seq<Item>, i: Item)
    ensures FlowAfter(code + [i]) == FlowStep(i, FlowAfter(code))
  {
    assert (code + [i])[..|code|] == code;
    assert FlowAfter(code + [i]) == FlowAfterLast(code + [i]);
  }

  /** Code whose flow is not lost is well linked. */
  lemma {:induction false} FlowLinked(code: seq<Item>)
    requires !FlowAfter(code).Lost?
    ensures WellLinked(code)
    ensures code != [] ==>
              var i := code[|code| - 1];
              && (FlowAfter(code).Stopped? <==> i.Static? || i.Dispatch?)
              && (FlowAfter(code).Left? <==> i.Prim? && i.t.superend)
    decreases |code|
  {
    if code != [] {
      var n := |code| - 1;
      var shorter := code[..n];
      assert code == shorter + [code[n]];
      FlowLast(shorter, code[n]);
      FlowLinked(shorter);
      forall i | 0 < i < |code| && code[i].Static? ensures code[i - 1].Static? || code[i - 1].Dispatch? {
        assert code[i - 1] == shorter[i - 1];
        if i < n { assert code[i] == shorter[i]; }
      }
      forall i | 0 <= i < |code| - 1 && code[i].Prim? && code[i].t.superend ensures code[i + 1].Dispatch? {
        assert code[i] == shorter[i];
        if i + 1 < n { assert code[i + 1] == shorter[i + 1]; }
      }
    }
  }

  ghost predicate Open(f: Flow) {
    f.Stopped? || f.Running?
  }

  lemma {:induction false} UpdatesFlow(code: seq<Item>, ks: seq<int>)
    requires Open(FlowAfter(code))
    ensures FlowAfter(code + Updates(ks)) == if ks == [] then FlowAfter(code) else Running
    decreases |ks|
  {
    if ks == [] {
      assert code + Updates(ks) == code;
    } else {
      FlowLast(code, Update(ks[0]));
      UpdatesFlow(code + [Update(ks[0])], ks[1..]);
      UpdatesCons(ks[0], ks[1..], code);
      assert [ks[0]] + ks[1..] == ks;
    }
  }

  /** Updates and a dispatch. */
  lemma {:induction false} DispatchFlow(code: seq<Item>, ks: seq<int>, end: int)
    requires Open(FlowAfter(code)) || (FlowAfter(code).Left? && ks == [])
    ensures FlowAfter(code + Updates(ks) + [Dispatch(end)]) == Stopped
  {
    if Open(FlowAfter(code)) { UpdatesFlow(code, ks); } else { assert code + Updates(ks) == code; }
    FlowLast(code + Updates(ks), Dispatch(end));
  }

  // ----- which primitives run -----

  datatype Done = Native(t: Tile) | Engine(next: int)

  function DoneBy(i: Item): seq<Done> {
    match i
    case Prim(t, _) => [Native(t)]
    case ToIp(t) => [Native(t)]
    case Static(next) => [Engine(next)]
    case _ => []
  }

  /** The primitives in code, in order. */
  function Prims(code: seq<Item>): seq<Done>
    decreases |code|, 1
  {
    if code == [] then [] else PrimsLast(code)
  }

  function PrimsLast(code: seq<Item>): seq<Done>
    requires code != []
    decreases |code|, 0
  {
    Prims(code[..|code| - 1]) + DoneBy(code[|code| - 1])
  }

  lemma {:induction false} PrimsMore(code: seq<Item>, i: Item)
    ensures Prims(code + [i]) == Prims(code) + DoneBy(i)
  {
    assert (code + [i])[..|code|] == code;
    assert Prims(code + [i]) == PrimsLast(code + [i]);
  }

  lemma {:induction false} UpdatesPrims(code: seq<Item>, ks: seq<int>)
    ensures Prims(code + Updates(ks)) == Prims(code)
    decreases |ks|
  {
    if ks == [] {
      assert code + Updates(ks) == code;
    } else {
      PrimsMore(code, Update(ks[0]));
      UpdatesPrims(code + [Update(ks[0])], ks[1..]);
      UpdatesCons(ks[0], ks[1..], code);
      assert [ks[0]] + ks[1..] == ks;
    }
  }

  lemma {:induction false} DispatchPrims(code: seq<Item>, ks: seq<int>, end: int)
    ensures Prims(code + Updates(ks) + [Dispatch(end)]) == Prims(code)
  {
    UpdatesPrims(code, ks);
    PrimsMore(code + Updates(ks), Dispatch(end));
  }

  /** `done` are all these primitives, in order; with `skip`, native branches may
      be left out. */
  ghost predicate Performs(done: seq<Done>, tiles: seq<Tile>, skip: bool)
    decreases |tiles|
  {
    if tiles == [] then done == []
    else
      var before, t := tiles[..|tiles| - 1], tiles[|tiles| - 1];
      || (done != [] && done[|done| - 1] == DoneFor(t) && Performs(done[..|done| - 1], before, skip))
      || (skip && t.reloc && t.jump.Always? && Performs(done, before, skip))
  }

  function DoneFor(t: Tile): Done {
    if t.reloc then Native(t) else Engine(t.end)
  }

  lemma {:induction false} PerformsNext(done: seq<Done>, done': seq<Done>, tiles: seq<Tile>, i: nat, skip: bool)
    requires i < |tiles| && Performs(done, tiles[..i], skip) && Performed(done, done', tiles[i], skip)
    ensures Performs(done', tiles[..i + 1], skip)
  {
    assert tiles[..i + 1][..i] == tiles[..i];
    if done' == done + [DoneFor(tiles[i])] { assert done'[..|done|] == done; }
  }

  /** One more primitive. */
  ghost predicate Performed(done: seq<Done>, done': seq<Done>, t: Tile, skip: bool) {
    done' == done + [DoneFor(t)] || (skip && t.reloc && t.jump.Always? && done' == done)
  }

  // ----- without the optimization -----

  /** Does the code for these primitives need a dispatch when it ends? */
  predicate NeedsJump(tiles: seq<Tile>) {
    tiles != [] && tiles[|tiles|-1].reloc && !tiles[|tiles|-1].superend
  }

  /** The code for a primitive that keeps ip up to date. */
  function EagerTile(t: Tile, jumpBefore: bool): seq<Item> {
    if !t.reloc then (if jumpBefore then [Dispatch(t.start)] else []) + [Static(t.end)]
    else [Update(t.end - t.start), Prim(t, 0)] + (if t.superend then [Dispatch(t.end)] else [])
  }

  function Eager(tiles: seq<Tile>): seq<Item> {
    if tiles == [] then []
    else
      var before := tiles[..|tiles|-1];
      Eager(before) + EagerTile(tiles[|tiles|-1], NeedsJump(before))
  }

  /** Primitives that follow each other from `start` on. */
  predicate Follow(tiles: seq<Tile>, start: int) {
    tiles == [] || (Follow(tiles[..|tiles|-1], start) && TileOk(tiles[|tiles|-1])
      && tiles[|tiles|-1].start == EndOf(tiles[..|tiles|-1], start))
  }

  function EndOf(tiles: seq<Tile>, start: int): int {
    if tiles == [] then start else tiles[|tiles|-1].end
  }

  /** What a primitive does when ip is where it should be. */
  function TileEffect(t: Tile, jumpBefore: bool): seq<Effect> {
    if !t.reloc then (if jumpBefore then [Goes(t.start)] else []) else PrimEffect(t, t.end)
  }

  lemma {:induction false} EagerTileRun(t: Tile, jumpBefore: bool)
    requires TileOk(t)
    ensures IpAfter(EagerTile(t, jumpBefore), At(t.start)) == At(t.end)
    ensures Effects(EagerTile(t, jumpBefore), At(t.start)) == TileEffect(t, jumpBefore)
  {
    if !t.reloc {
      EagerStaticRun(t.start, t.end);
      assert [] + [Static(t.end)] == [Static(t.end)];
    } else {
      EagerPrimRun(t);
      if t.superend {
        RunOne(Dispatch(t.end), Elsewhere);
        RunAppend([Update(t.end - t.start), Prim(t, 0)], [Dispatch(t.end)], At(t.start));
      } else {
        assert EagerTile(t, jumpBefore) == [Update(t.end - t.start), Prim(t, 0)];
      }
    }
  }

  lemma {:induction false} EagerStaticRun(start: int, end: int)
    ensures IpAfter([Static(end)], At(start)) == At(end) && Effects([Static(end)], At(start)) == []
    ensures IpAfter([Dispatch(start)] + [Static(end)], At(start)) == At(end)
            && Effects([Dispatch(start)] + [Static(end)], At(start)) == [Goes(start)]
  {
    RunOne(Dispatch(start), At(start));
    RunOne(Static(end), At(start));
    RunAppend([Dispatch(start)], [Static(end)], At(start));
  }

  lemma {:induction false} EagerPrimRun(t: Tile)
    requires TileOk(t)
    ensures IpAfter([Update(t.end - t.start), Prim(t, 0)], At(t.start)) == if t.superend then Elsewhere else At(t.end)
    ensures Effects([Update(t.end - t.start), Prim(t, 0)], At(t.start)) == PrimEffect(t, t.end)
  {
    var u, p := Update(t.end - t.start), Prim(t, 0);
    RunOne(u, At(t.start));
    RunOne(p, At(t.end));
    RunAppend([u], [p], At(t.start));
    assert [u] + [p] == [u, p];
  }

  lemma {:induction false} EagerRun(tiles: seq<Tile>, start: int)
    requires Follow(tiles, start)
    ensures IpAfter(Eager(tiles), At(start)) == At(EndOf(tiles, start))
  {
    if tiles != [] {
      var before, t := tiles[..|tiles|-1], tiles[|tiles|-1];
      EagerRun(before, start);
      EagerTileRun(t, NeedsJump(before));
      RunAppend(Eager(before), EagerTile(t, NeedsJump(before)), At(start));
    }
  }

  // ----- with the optimization -----

  /** The code for a primitive: only if `synced` are there updates, as few as
      bring ip into the reach of a variant. */
  function VariantCode(lim: Limits, t: Tile, synced: bool, from: int): seq<Item>
    requires LimitsOk(lim)
  {
    Updates(VariantSteps(lim, t, synced, from)) + VariantTail(lim, t, synced, from)
  }

  function VariantSteps(lim: Limits, t: Tile, synced: bool, from: int): seq<int>
    requires LimitsOk(lim)
  {
    if synced then Steps(lim, t.end - from, 0, t.maxOffset) else []
  }

  function VariantTail(lim: Limits, t: Tile, synced: bool, from: int): seq<Item>
    requires LimitsOk(lim)
  {
    [Prim(t, if synced then t.end - from - Sum(VariantSteps(lim, t, synced, from)) else 0)]
  }

  class Emitter {
    const lim: Limits
    /** `opt_ip_updates` and `opt_ip_updates_branch` */
    const opt: nat
    const branchUpdates: nat
    ghost const start: Ip

    var ipAt: int
    var lastJump: bool
    var code: seq<Item>

    ghost predicate IpAtEnd(end: int)
      reads this
    {
      IpAfter(code, start) == At(end) && ipAt == end
    }

    constructor (lim: Limits, opt: nat, branchUpdates: nat, start: int)
      ensures this.lim == lim && this.opt == opt && this.branchUpdates == branchUpdates && this.start == At(start)
      ensures code == [] && ipAt == start && !lastJump
    {
      this.lim, this.opt, this.branchUpdates, this.start := lim, opt, branchUpdates, At(start);
      ipAt, lastJump, code := start, false, [];
    }

    /** `append_ip_update1` */
    method AppendIpUpdate1(target: int, l: int, u: int) returns (rest: int)
      requires LimitsOk(lim) && l <= 0 <= u && (opt > 0 || target == ipAt)
      modifies this`code, this`ipAt
      ensures code == old(code) + Updates(Steps(lim, target - old(ipAt), l, u))
      ensures l <= rest <= u && ipAt == target - rest && ipAt == old(ipAt) + Sum(Steps(lim, target - old(ipAt), l, u))
    {
      var diff := target - ipAt;
      ghost var ks := Steps(lim, diff, l, u);
      while diff < l || diff > u
        invariant code + Updates(Steps(lim, diff, l, u)) == old(code) + Updates(ks)
        invariant ipAt == target - diff && ipAt + Sum(Steps(lim, diff, l, u)) == old(ipAt) + Sum(ks)
        decreases if diff < 0 then -diff else diff
      {
        var k := Clamp(lim, diff);
        UpdatesCons(k, Steps(lim, diff - k, l, u), code);
        code := code + [Update(k)];
        diff := diff - k;
        ipAt := ipAt + k;
      }
      assert Updates([]) == [];
      rest := diff;
    }

    /** The same, and what it does. */
    method Advance(target: int, u: int) returns (rest: int)
      requires LimitsOk(lim) && 0 <= u && (opt > 0 || target == ipAt) && IpAfter(code, start) == At(ipAt)
      requires Open(FlowAfter(code))
      modifies this`code, this`ipAt
      ensures target == old(ipAt) ==> FlowAfter(code) == old(FlowAfter(code))
      ensures Open(FlowAfter(code)) && (old(FlowAfter(code)).Running? ==> FlowAfter(code).Running?)
      ensures 0 <= rest <= u && ipAt == target - rest && IpAfter(code, start) == At(ipAt)
      ensures Effects(code, start) == old(Effects(code, start)) && Prims(code) == old(Prims(code))
      ensures code == old(code) + Updates(Steps(lim, target - old(ipAt), 0, u))
              && ipAt == old(ipAt) + Sum(Steps(lim, target - old(ipAt), 0, u))
    {
      ghost var code0, from, ks := code, ipAt, Steps(lim, target - ipAt, 0, u);
      rest := AppendIpUpdate1(target, 0, u);
      UpdatesRun(code0, code, start, from, ks);
    }

    /** Brings ip to the target of a branch. */
    method AdvanceTo(target: int)
      requires LimitsOk(lim) && opt > 0 && IpAfter(code, start) == At(ipAt) && Open(FlowAfter(code))
      modifies this`code, this`ipAt
      ensures ipAt == target && IpAfter(code, start) == At(target) && Open(FlowAfter(code))
      ensures Effects(code, start) == old(Effects(code, start)) && Prims(code) == old(Prims(code))
    {
      var rest := Advance(target, 0);
    }

    /** Appends an item. */
    method Append(i: Item)
      modifies this`code
      ensures code == old(code) + [i]
      ensures IpAfter(code, start) == IpStep(i, old(IpAfter(code, start)))
      ensures Effects(code, start) == old(Effects(code, start)) + ItemEffect(i, old(IpAfter(code, start)))
      ensures FlowAfter(code) == FlowStep(i, old(FlowAfter(code))) && Prims(code) == old(Prims(code)) + DoneBy(i)
    {
      FlowLast(code, i);
      PrimsMore(code, i);
      RunLast(code, i, start);
      RunOne(i, IpAfter(code, start));
      code := code + [i];
    }

    /** `append_jump` behind the primitive that ends at `end`. */
    method AppendJump(end: int)
      requires LimitsOk(lim) && (opt == 0 && lastJump ==> ipAt == end)
      modifies this`code, this`ipAt, this`lastJump
      ensures !lastJump
      ensures if old(lastJump) then ipAt == end
              && code == old(code) + Updates(Steps(lim, end - old(ipAt), 0, 0)) + [Dispatch(end)]
              else ipAt == old(ipAt) && code == old(code)
    {
      if lastJump {
        var rest := AppendIpUpdate1(end, 0, 0);
        code := code + [Dispatch(end)];
        lastJump := false;
      }
    }

    /** What is to come of a primitive that ends a superinstruction: either it
        has set ip, or ip is where the branch goes. */
    ghost predicate Ended(t: Tile, effects: seq<Effect>)
      reads this
    {
      EndedAs(t, IpAfter(code, start), Effects(code, start), effects)
    }

    /** `append_prim` */
    method AppendPrim(t: Tile)
      requires LimitsOk(lim) && TileOk(t) && t.reloc && IpAfter(code, start) == At(ipAt)
               && (opt == 0 ==> ipAt == t.start) && Open(FlowAfter(code))
      modifies this`code, this`ipAt, this`lastJump
      ensures lastJump && (opt == 0 || t.superend ==> ipAt == t.end)
      ensures if t.superend then !FlowAfter(code).Lost? else FlowAfter(code).Running?
      ensures Performed(old(Prims(code)), Prims(code), t, Skips())
      ensures opt > 0 && t.jump.NoJump? ==> code == old(code) + VariantCode(lim, t, Synced(t), old(ipAt))
      ensures t.superend ==> Ended(t, old(Effects(code, start)))
      ensures !t.superend ==>
              IpAfter(code, start) == At(ipAt)
              && Effects(code, start) == old(Effects(code, start)) + PrimEffect(t, t.end)
    {
      var near := Near(t.jump);
      if opt == 0 {
        AppendEager(t);
      } else if t.jump.Always? && near {
        AdvanceTo(t.jump.target);
        ipAt := t.end;
      } else if t.jump.If? && near {
        AppendToIp(t);
      } else {
        AppendVariant(t);
      }
      lastJump := true;
    }

    /** A conditional branch to where ip points. */
    method AppendToIp(t: Tile)
      requires LimitsOk(lim) && TileOk(t) && t.jump.If? && opt > 0 && IpAfter(code, start) == At(ipAt)
      requires Open(FlowAfter(code))
      modifies this`code, this`ipAt
      ensures FlowAfter(code) == Running && IpAfter(code, start) == At(ipAt)
      ensures Prims(code) == old(Prims(code)) + [Native(t)]
      ensures Effects(code, start) == old(Effects(code, start)) + PrimEffect(t, t.end)
    {
      AdvanceTo(t.jump.target);
      Append(ToIp(t));
    }

    /** A primitive with its own ip update. */
    method AppendEager(t: Tile)
      requires TileOk(t) && IpAfter(code, start) == At(ipAt) && ipAt == t.start && Open(FlowAfter(code))
      modifies this`code, this`ipAt
      ensures FlowAfter(code) == (if t.superend then Left else Running)
      ensures Prims(code) == old(Prims(code)) + [Native(t)]
      ensures ipAt == t.end && IpAfter(code, start) == if t.superend then Elsewhere else At(t.end)
      ensures Effects(code, start) == old(Effects(code, start)) + PrimEffect(t, t.end)
    {
      Append(Update(t.end - t.start));
      ipAt := t.end;
      VariantEffect(t, 0, ipAt);
      AppendVariantItem(t, 0);
    }

    /** Is the target of a branch so near that the updates for it are not too
        many? */
    method Near(jump: Jump) returns (near: bool)
      requires LimitsOk(lim)
      ensures near ==> branchUpdates > 0 && !jump.NoJump? && |Steps(lim, jump.target - ipAt, 0, 0)| <= branchUpdates
    {
      if branchUpdates == 0 || jump.NoJump? { return false; }
      var forward := if jump.Always? then branchUpdates else branchUpdates / 2;
      near := InRange(lim, ipAt, jump.target, branchUpdates, forward);
    }

    /** Is ip brought up to date for the primitive? */
    predicate Synced(t: Tile) {
      t.imm || (t.superend && !(opt > 1 && t.ipDead))
    }

    /** The variant of a primitive for the offset that remains, with updates
        only if it needs them. */
    method AppendVariant(t: Tile)
      requires LimitsOk(lim) && TileOk(t) && opt > 0 && IpAfter(code, start) == At(ipAt) && Open(FlowAfter(code))
      modifies this`code, this`ipAt
      ensures FlowAfter(code) == (if t.superend then Left else Running)
      ensures Prims(code) == old(Prims(code)) + [Native(t)]
      ensures code == old(code) + VariantCode(lim, t, Synced(t), old(ipAt))
      ensures t.superend ==> ipAt == t.end && Ended(t, old(Effects(code, start)))
      ensures !t.superend ==>
              IpAfter(code, start) == At(ipAt)
              && Effects(code, start) == old(Effects(code, start)) + PrimEffect(t, t.end)
    {
      var offset := Sync(t);
      VariantEffect(t, offset, ipAt);
      AppendVariantItem(t, offset);
      Assoc(old(code), Updates(VariantSteps(lim, t, Synced(t), old(ipAt))), [Prim(t, offset)]);
      if t.superend { ipAt := t.end; }
    }

    /** Brings ip into the reach of a variant, if the primitive needs it. */
    method Sync(t: Tile) returns (offset: int)
      requires LimitsOk(lim) && opt > 0 && IpAfter(code, start) == At(ipAt) && Open(FlowAfter(code))
      modifies this`code, this`ipAt
      ensures Open(FlowAfter(code)) && Prims(code) == old(Prims(code))
      ensures IpAfter(code, start) == At(ipAt) && Effects(code, start) == old(Effects(code, start))
      ensures [Prim(t, offset)] == VariantTail(lim, t, Synced(t), old(ipAt))
              && code == old(code) + Updates(VariantSteps(lim, t, Synced(t), old(ipAt)))
      ensures if Synced(t) then ipAt + offset == t.end else offset == 0 && ipAt == old(ipAt)
    {
      offset := 0;
      assert Updates([]) == [];
      var dead := opt > 1 && t.superend && !t.imm && t.ipDead;
      if t.imm || (t.superend && !dead) { offset := Advance(t.end, t.maxOffset); }
    }

    method AppendVariantItem(t: Tile, offset: int)
      requires IpAfter(code, start) == At(ipAt) && ItemEffect(Prim(t, offset), At(ipAt)) == PrimEffect(t, t.end)
      requires Open(FlowAfter(code))
      modifies this`code
      ensures FlowAfter(code) == (if t.superend then Left else Running)
      ensures Prims(code) == old(Prims(code)) + [Native(t)]
      ensures Effects(code, start) == old(Effects(code, start)) + PrimEffect(t, t.end)
      ensures IpAfter(code, start) == if t.superend then Elsewhere else At(ipAt)
      ensures code == old(code) + [Prim(t, offset)]
    {
      Append(Prim(t, offset));
    }

    /** Are updates to the target of a branch tried in place of the branch? */
    ghost predicate Skips() {
      opt > 0 && branchUpdates > 0
    }

    /** Native code runs on exactly if a dispatch is pending. */
    ghost predicate Linked()
      reads this
    {
      FlowAfter(code) == if lastJump then Running else Stopped
    }

    /** `compile_prim_dyn` */
    method CompilePrim(t: Tile)
      requires LimitsOk(lim) && TileOk(t) && IpAfter(code, start) == At(ipAt)
               && (opt == 0 || !lastJump ==> ipAt == t.start) && Linked()
      modifies this`code, this`ipAt, this`lastJump
      ensures Linked() && Performed(old(Prims(code)), Prims(code), t, Skips())
      ensures IpAfter(code, start) == At(ipAt) && lastJump == (t.reloc && !t.superend)
              && (opt == 0 || !lastJump ==> ipAt == t.end)
      ensures Effects(code, start) == old(Effects(code, start)) + TileEffect(t, old(lastJump))
    {
      if t.reloc {
        ghost var before := Effects(code, start);
        AppendPrim(t);
        if t.superend {
          ghost var code1 := code;
          AppendJump(t.end);
          EndedDispatch(lim, code1, start, t, before);
          DispatchFlow(code1, Steps(lim, 0, 0, 0), t.end);
          DispatchPrims(code1, Steps(lim, 0, 0, 0), t.end);
        }
      } else {
        CompileStatic(t);
      }
    }

    /** A primitive that is not relocatable. */
    method CompileStatic(t: Tile)
      requires LimitsOk(lim) && !t.reloc && IpAfter(code, start) == At(ipAt)
               && (opt == 0 || !lastJump ==> ipAt == t.start) && Linked()
      modifies this`code, this`ipAt, this`lastJump
      ensures Linked() && Prims(code) == old(Prims(code)) + [Engine(t.end)]
      ensures IpAfter(code, start) == At(t.end) && !lastJump && ipAt == t.end
      ensures Effects(code, start) == old(Effects(code, start)) + TileEffect(t, old(lastJump))
    {
      DispatchPrevious(t.start);
      ghost var effects := Effects(code, start);
      Append(Static(t.end));
      assert Effects(code, start) == effects + [] == effects;
      ipAt := t.end;
    }

    /** `append_jump_previous` */
    method DispatchPrevious(end: int)
      requires LimitsOk(lim) && IpAfter(code, start) == At(ipAt) && (opt == 0 || !lastJump ==> ipAt == end) && Linked()
      modifies this`code, this`ipAt, this`lastJump
      ensures IpAfter(code, start) == At(end) && FlowAfter(code) == Stopped && !lastJump
      ensures Prims(code) == old(Prims(code))
      ensures Effects(code, start) == old(Effects(code, start)) + (if old(lastJump) then [Goes(end)] else [])
    {
      ghost var code0, from := code, ipAt;
      if lastJump {
        JumpRun(lim, code0, start, from, end);
        DispatchFlow(code0, Steps(lim, end - from, 0, 0), end);
        DispatchPrims(code0, Steps(lim, end - from, 0, 0), end);
      }
      AppendJump(end);
    }

    /** The code so far does what the eager code for the primitives does. */
    ghost predicate Did(tiles: seq<Tile>, s: int)
      reads this
    {
      && start == At(s) && IpAfter(code, start) == At(ipAt)
      && lastJump == NeedsJump(tiles) && (opt == 0 || !lastJump ==> ipAt == EndOf(tiles, s))
      && Effects(code, start) == Effects(Eager(tiles), At(s)) && Linked() && Performs(Prims(code), tiles, Skips())
    }

    method CompileNext(tiles: seq<Tile>, ghost s: int, i: nat)
      requires LimitsOk(lim) && i < |tiles| && Follow(tiles, s) && Did(tiles[..i], s)
      modifies this`code, this`ipAt, this`lastJump
      ensures Did(tiles[..i+1], s)
    {
      FollowPrefix(tiles, s, i);
      EagerNext(tiles, s, i);
      ghost var done := Prims(code);
      CompilePrim(tiles[i]);
      PerformsNext(done, Prims(code), tiles, i, Skips());
    }
  }

  /** Can `n` updates, at most `forward` of them ahead, lead to the target? */
  function InRange(lim: Limits, from: int, target: int, n: nat, forward: nat): (near: bool)
    requires LimitsOk(lim) && forward <= n
    ensures near ==> |Steps(lim, target - from, 0, 0)| <= n
  {
    var near := from + n * lim.min <= target <= from + forward * lim.max;
    RangeSteps(lim, target - from, n, forward);
    near
  }

  lemma {:induction false} RangeSteps(lim: Limits, diff: int, n: nat, forward: nat)
    requires LimitsOk(lim) && forward <= n
    ensures n * lim.min <= diff <= forward * lim.max ==> |Steps(lim, diff, 0, 0)| <= n
  {
    if n * lim.min <= diff <= forward * lim.max {
      ProductSigns(lim, n - forward);
      assert n * lim.max == forward * lim.max + (n - forward) * lim.max;
      StepsCount(lim, diff, 0, 0, n);
    }
  }

  /** A primitive that ends a superinstruction has set ip, or the code in its
      place has brought ip to the target of the branch. */
  ghost predicate EndedAs(t: Tile, ip: Ip, effects: seq<Effect>, before: seq<Effect>) {
    || (ip.Elsewhere? && effects == before + PrimEffect(t, t.end))
    || (t.jump.Always? && ip == At(t.jump.target) && effects == before)
  }

  lemma {:induction false} EndedDispatch(lim: Limits, code: seq<Item>, start: Ip, t: Tile, before: seq<Effect>)
    requires LimitsOk(lim) && EndedAs(t, IpAfter(code, start), Effects(code, start), before)
    ensures var code' := code + Updates(Steps(lim, 0, 0, 0)) + [Dispatch(t.end)];
            IpAfter(code', start) == At(t.end) && Effects(code', start) == before + PrimEffect(t, t.end)
  {
    assert code + Updates(Steps(lim, 0, 0, 0)) == code;
    RunOne(Dispatch(t.end), IpAfter(code, start));
    RunLast(code, Dispatch(t.end), start);
  }

  lemma {:induction false} AdvanceRun(code: seq<Item>, start: Ip, from: int, ks: seq<int>)
    requires IpAfter(code, start) == At(from)
    ensures IpAfter(code + Updates(ks), start) == At(from + Sum(ks))
            && Effects(code + Updates(ks), start) == Effects(code, start)
  {
    RunUpdates(ks, from);
    RunAppend(code, Updates(ks), start);
  }

  /** All that updates do: they move ip, and nothing else. */
  lemma {:induction false} UpdatesRun(code: seq<Item>, code': seq<Item>, start: Ip, from: int, ks: seq<int>)
    requires IpAfter(code, start) == At(from) && Open(FlowAfter(code)) && code' == code + Updates(ks)
    ensures IpAfter(code', start) == At(from + Sum(ks)) && Effects(code', start) == Effects(code, start)
    ensures Prims(code') == Prims(code) && FlowAfter(code') == if ks == [] then FlowAfter(code) else Running
  {
    AdvanceRun(code, start, from, ks);
    UpdatesFlow(code, ks);
    UpdatesPrims(code, ks);
  }

  /** A dispatch to the next primitive. */
  lemma {:induction false} JumpRun(lim: Limits, code: seq<Item>, start: Ip, from: int, end: int)
    requires LimitsOk(lim) && IpAfter(code, start) == At(from)
    ensures var code' := code + Updates(Steps(lim, end - from, 0, 0)) + [Dispatch(end)];
            IpAfter(code', start) == At(end) && Effects(code', start) == Effects(code, start) + [Goes(end)]
  {
    var ks := Steps(lim, end - from, 0, 0);
    StepsOk(lim, end - from, 0, 0);
    JumpRunBy(code, start, from, end, ks, code + Updates(ks));
  }

  lemma {:induction false} JumpRunBy(code: seq<Item>, start: Ip, from: int, end: int, ks: seq<int>, code1: seq<Item>)
    requires IpAfter(code, start) == At(from) && from + Sum(ks) == end && code1 == code + Updates(ks)
    ensures IpAfter(code1 + [Dispatch(end)], start) == At(end)
            && Effects(code1 + [Dispatch(end)], start) == Effects(code, start) + [Goes(end)]
  {
    AdvanceRun(code, start, from, ks);
    RunOne(Dispatch(end), At(end));
    RunLast(code1, Dispatch(end), start);
  }

  /** The code for a block, which starts with ip up to date and ends so. */
  method CompileBlock(lim: Limits, opt: nat, branchUpdates: nat, tiles: seq<Tile>, start: int) returns (e: Emitter)
    requires LimitsOk(lim) && Follow(tiles, start)
    ensures e.IpAtEnd(EndOf(tiles, start)) && Effects(e.code, At(start)) == Effects(Eager(tiles), At(start))
    ensures WellLinked(e.code) && FlowAfter(e.code) == (if NeedsJump(tiles) then Running else Stopped)
    ensures Performs(Prims(e.code), tiles, opt > 0 && branchUpdates > 0)
  {
    e := new Emitter(lim, opt, branchUpdates, start);
    var i := 0;
    assert tiles[..0] == [] && Eager([]) == [];
    RunNone(At(start));
    while i < |tiles|
      invariant 0 <= i <= |tiles| && e.lim == lim && e.opt == opt && e.branchUpdates == branchUpdates && fresh(e)
      invariant e.Did(tiles[..i], start)
    {
      e.CompileNext(tiles, start, i);
      i := i + 1;
    }
    assert tiles[..i] == tiles;
    var rest := e.Advance(EndOf(tiles, start), 0);
    FlowLinked(e.code);
  }

  lemma {:induction false} FollowPrefix(tiles: seq<Tile>, start: int, i: nat)
    requires i < |tiles| && Follow(tiles, start)
    ensures Follow(tiles[..i], start) && Follow(tiles[..i+1], start) && TileOk(tiles[i])
            && tiles[i].start == EndOf(tiles[..i], start)
    ensures tiles[..i+1][..i] == tiles[..i]
    decreases |tiles|
  {
    var shorter := tiles[..|tiles|-1];
    if i < |shorter| {
      FollowPrefix(shorter, start, i);
      assert shorter[..i] == tiles[..i] && shorter[..i+1] == tiles[..i+1];
    } else {
      assert tiles[..i] == shorter && tiles[..i+1] == tiles;
    }
  }

  /** One more primitive in the eager code. */
  lemma {:induction false} EagerNext(tiles: seq<Tile>, start: int, i: nat)
    requires i < |tiles| && Follow(tiles, start)
    ensures Effects(Eager(tiles[..i+1]), At(start))
            == Effects(Eager(tiles[..i]), At(start)) + TileEffect(tiles[i], NeedsJump(tiles[..i]))
  {
    FollowPrefix(tiles, start, i);
    var before, t := tiles[..i], tiles[i];
    EagerRun(before, start);
    EagerTileRun(t, NeedsJump(before));
    RunAppend(Eager(before), EagerTile(t, NeedsJump(before)), At(start));
  }

  /** A primitive that needs ip sees the end of its threaded code. */
  lemma {:induction false} VariantEffect(t: Tile, offset: int, ip: int)
    requires TileOk(t) && (t.NeedsIp() ==> ip + offset == t.end)
    ensures ItemEffect(Prim(t, offset), At(ip)) == PrimEffect(t, t.end)
  {
  }

  lemma {:induction false} UpdatesCons(k: int, ks: seq<int>, code: seq<Item>)
    ensures code + Updates([k] + ks) == code + [Update(k)] + Updates(ks)
  {
    assert Updates([k] + ks) == [Update(k)] + Updates(ks);
  }
}
