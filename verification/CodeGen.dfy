/** The one-pass code generator of mini: parser actions with back-patching over
    a peephole optimiser (vmgen-ex/mini.y, vmgen-ex/peephole.c). */
module CodeGen {
  import opened Basics
  import opened MiniLanguage
  import opened FlatMachine
  import opened ThreadedCode

  // ----- the peephole table -----

  /** `Combination`: `combo` does what `prefix` and then `last` do. */
  datatype Row = Row(prefix: Inst, last: Inst, combo: Inst)

  predicate Combines(r: Row, i1: Inst, i2: Inst) {
    r.prefix == i1 && r.last == i2
  }

  /** The last row for a pair of instructions. */
  function LastMatch(rows: seq<Row>, i1: Inst, i2: Inst): (c: Option<Inst>)
    ensures c.Some? ==> exists k :: 0 <= k < |rows| && Combines(rows[k], i1, i2) && rows[k].combo == c.value
  {
    if rows == [] then None
    else
      var r := rows[|rows|-1];
      if Combines(r, i1, i2) then Some(r.combo) else LastMatch(rows[..|rows|-1], i1, i2)
  }

  /** The chain for a pair, as `peephole_opt` walks it. */
  function FirstMatch(chain: seq<Row>, i1: Inst, i2: Inst): Option<Inst> {
    if chain == [] then None
    else if Combines(chain[0], i1, i2) then Some(chain[0].combo)
    else FirstMatch(chain[1..], i1, i2)
  }

  type Buckets = map<nat, seq<Row>>

  function Chain(t: Buckets, h: nat): seq<Row> {
    if h in t then t[h] else []
  }

  /** Lookup in the hash table finds the last row of the table. */
  ghost predicate TableFor(t: Buckets, hash: (Inst, Inst) -> nat, rows: seq<Row>) {
    forall i1: Inst, i2: Inst :: FirstMatch(Chain(t, hash(i1, i2)), i1, i2) == LastMatch(rows, i1, i2)
  }

  /** `prepare_peephole_table`: each row goes to the front of its chain. */
  method PrepareTable(rows: seq<Row>, hash: (Inst, Inst) -> nat) returns (t: Buckets)
    ensures TableFor(t, hash, rows)
  {
    t := map[];
    var i := 0;
    while i < |rows|
      invariant 0 <= i <= |rows|
      invariant TableFor(t, hash, rows[..i])
    {
      var r := rows[i];
      var h := hash(r.prefix, r.last);
      ghost var t0 := t;
      t := t[h := [r] + Chain(t, h)];
      assert rows[..i+1][..i] == rows[..i] && rows[..i+1][i] == r;
      forall i1: Inst, i2: Inst
        ensures FirstMatch(Chain(t, hash(i1, i2)), i1, i2) == LastMatch(rows[..i+1], i1, i2)
      {
        assert FirstMatch(Chain(t0, hash(i1, i2)), i1, i2) == LastMatch(rows[..i], i1, i2);
        assert ([r] + Chain(t0, h))[1..] == Chain(t0, h);
      }
      i := i + 1;
    }
    assert rows[..i] == rows;
  }

  /** `peephole_opt`. */
  method PeepholeOpt(
    t: Buckets, hash: (Inst, Inst) -> nat, useSuper: bool, i1: Inst, i2: Inst, ghost rows: seq<Row>)
    returns (c: Option<Inst>)
    requires TableFor(t, hash, rows)
    ensures c == if useSuper then LastMatch(rows, i1, i2) else None
  {
    if !useSuper { return None; }
    var chain := Chain(t, hash(i1, i2));
    var p := 0;
    assert FirstMatch(chain, i1, i2) == LastMatch(rows, i1, i2);
    assert chain[0..] == chain;
    while p < |chain|
      invariant 0 <= p <= |chain|
      invariant FirstMatch(chain[p..], i1, i2) == LastMatch(rows, i1, i2)
    {
      if Combines(chain[p], i1, i2) { return Some(chain[p].combo); }
      assert chain[p..][1..] == chain[p+1..];
      p := p + 1;
    }
    return None;
  }

  // ----- instruction numbers -----

  /** The numbers of the primitives in `vm_prim`. */
  function PrimNumber(k: Kind): Inst {
    match k
    case KBin(Add) => 0
    case KBin(Sub) => 1
    case KBin(Mul) => 2
    case KBin(And) => 3
    case KBin(Or) => 4
    case KBin(LessThan) => 5
    case KBin(Equals) => 6
    case KUn(Not) => 7
    case KUn(Negate) => 8
    case KLit => 9
    case KDrop => 10
    case KPrint => 11
    case KBranch => 12
    case KZBranch => 13
    case KLoad => 16
    case KStore => 17
  }

  /** Primitives stand for themselves; each row of the table combines what its
      prefix stands for with one more primitive; no control transfer has
      anything behind it. */
  ghost predicate RowsOk(ms: Meanings, rows: seq<Row>) {
    && (forall k: Kind :: PrimNumber(k) in ms && ms[PrimNumber(k)] == [k])
    && forall r | r in rows ::
         && r.prefix in ms && r.last in ms && r.combo in ms
         && ms[r.combo] == ms[r.prefix] + ms[r.last]
         && NoControl(ms[r.prefix])
  }

  ghost predicate NoControl(ks: seq<Kind>) {
    forall k | 0 <= k < |ks| :: !ks[k].Control()
  }

  // ----- what may still change -----

  /** The last instruction may become part of a combination. */
  predicate Foldable(gs: seq<Group>, last: Option<nat>) {
    last.Some? && gs != [] && gs[|gs|-1].items != [] && !gs[|gs|-1].items[|gs[|gs|-1].items|-1].Control()
  }

  /** Instruction starts that later code generation keeps. */
  ghost predicate Stable(gs: seq<Group>, last: Option<nat>, b: nat) {
    Boundary(gs, b) && (Foldable(gs, last) ==> b <= |Flat(gs[..|gs|-1])|)
  }

  ghost predicate Keeps(gs: seq<Group>, last: Option<nat>, gs': seq<Group>, last': Option<nat>) {
    forall b | Stable(gs, last, b) :: Stable(gs', last', b) && AddrOf(gs', b) == AddrOf(gs, b)
  }

  ghost predicate GroupsOk(ms: Meanings, gs: seq<Group>) {
    && NonEmpty(gs)
    && forall i | 0 <= i < |gs| :: GroupOk(ms, gs[i])
  }

  ghost predicate TargetsStable(gs: seq<Group>, last: Option<nat>) {
    forall k | 0 <= k < |Flat(gs)| && Flat(gs)[k].Control() && Flat(gs)[k].target.Some? ::
      Stable(gs, last, Flat(gs)[k].target.value)
  }

  ghost predicate LastOk(gs: seq<Group>, last: Option<nat>) {
    last.Some? ==> gs != [] && last.value == Size(gs[..|gs|-1])
  }

  ghost predicate BufferOk(ms: Meanings, gs: seq<Group>, last: Option<nat>, code: seq<Cell>) {
    && GroupsOk(ms, gs) && TargetsStable(gs, last) && LastOk(gs, last)
    && code == Encode(gs, gs)
  }

  // ----- a new instruction -----

  /** Targets that both layouts know at the same address encode alike. */
  ghost predicate SameTargets(gs: seq<Group>, gs': seq<Group>, items: seq<Instr>) {
    forall k | 0 <= k < |items| && items[k].Control() && items[k].target.Some? ::
      AddrOf(gs, items[k].target.value) == AddrOf(gs', items[k].target.value)
  }

  lemma {:induction false} ArgsSame(gs: seq<Group>, gs': seq<Group>, items: seq<Instr>)
    requires SameTargets(gs, gs', items)
    ensures Args(gs, items) == Args(gs', items)
  {
    if items != [] { ArgsSame(gs, gs', items[..|items|-1]); }
  }

  lemma {:induction false} EncodeSame(gs: seq<Group>, gs': seq<Group>, part: seq<Group>)
    requires SameTargets(gs, gs', Flat(part))
    ensures Encode(gs, part) == Encode(gs', part)
  {
    if part != [] {
      var shorter, items := part[..|part|-1], part[|part|-1].items;
      var P := Flat(part);
      assert P == Flat(shorter) + items;
      assert SameTargets(gs, gs', Flat(shorter)) by {
        forall k | 0 <= k < |Flat(shorter)| ensures P[k] == Flat(shorter)[k] {}
      }
      assert SameTargets(gs, gs', items) by {
        forall k | 0 <= k < |items| ensures P[|Flat(shorter)| + k] == items[k] {}
      }
      EncodeSame(gs, gs', shorter);
      ArgsSame(gs, gs', items);
    }
  }

  lemma {:induction false} EncodeAppend(gs: seq<Group>, part: seq<Group>, g: Group)
    ensures Encode(gs, part + [g]) == Encode(gs, part) + [InstCell(g.inst)] + Args(gs, g.items)
  {
    assert (part + [g])[..|part|] == part;
  }

  lemma {:induction false} StableTargetsSame(
    gs: seq<Group>, last: Option<nat>, gs': seq<Group>, last': Option<nat>, items: seq<Instr>)
    requires Keeps(gs, last, gs', last')
    requires forall k | 0 <= k < |items| && items[k].Control() && items[k].target.Some? ::
             Stable(gs, last, items[k].target.value)
    ensures SameTargets(gs, gs', items)
  {
  }

  lemma {:induction false} TargetsExtended(
    gs: seq<Group>, last: Option<nat>, gs': seq<Group>, last': Option<nat>, i: Instr)
    requires Keeps(gs, last, gs', last') && TargetsStable(gs, last) && Flat(gs') == Flat(gs) + [i]
    requires i.Control() && i.target.Some? ==> Stable(gs, last, i.target.value)
    ensures TargetsStable(gs', last')
  {
    forall k | 0 <= k < |Flat(gs')| && Flat(gs')[k].Control() && Flat(gs')[k].target.Some?
      ensures Stable(gs', last', Flat(gs')[k].target.value)
    {
      if k < |Flat(gs)| { assert Flat(gs')[k] == Flat(gs)[k]; }
    }
  }

  /** A new VM instruction at the end keeps all starts. */
  lemma {:induction false} KeepsNew(gs: seq<Group>, last: Option<nat>, g: Group, last': Option<nat>)
    requires g.items != []
    ensures Keeps(gs, last, gs + [g], last')
  {
    assert (gs + [g])[..|gs|] == gs;
    forall b | Stable(gs, last, b) ensures Stable(gs + [g], last', b) && AddrOf(gs + [g], b) == AddrOf(gs, b) {
      BoundaryAppend(gs, g, b);
      BoundaryBound(gs, b);
    }
  }

  lemma {:induction false} EncodeNew(gs: seq<Group>, last: Option<nat>, g: Group, last': Option<nat>)
    requires g.items != [] && TargetsStable(gs, last) && Keeps(gs, last, gs + [g], last')
    requires forall k | 0 <= k < |g.items| && g.items[k].Control() && g.items[k].target.Some? ::
             Stable(gs, last, g.items[k].target.value)
    ensures Encode(gs + [g], gs + [g]) == Encode(gs, gs) + [InstCell(g.inst)] + Args(gs, g.items)
  {
    StableTargetsSame(gs, last, gs + [g], last', Flat(gs));
    EncodeSame(gs, gs + [g], gs);
    EncodeAppend(gs + [g], gs, g);
    StableTargetsSame(gs, last, gs + [g], last', g.items);
    ArgsSame(gs, gs + [g], g.items);
  }

  lemma {:induction false} NewInstruction(
    ms: Meanings, gs: seq<Group>, last: Option<nat>, code: seq<Cell>, n: Inst, i: Instr)
    requires BufferOk(ms, gs, last, code) && n in ms && ms[n] == [KindOf(i)]
    requires i.Control() && i.target.Some? ==> Stable(gs, last, i.target.value)
    ensures var gs' := gs + [Group(n, [i])]; var last' := Some(|code|);
            && BufferOk(ms, gs', last', code + [InstCell(n)] + Args(gs, [i]))
            && Flat(gs') == Flat(gs) + [i] && Keeps(gs, last, gs', last')
  {
    var g := Group(n, [i]);
    var gs', last' := gs + [g], Some(|code|);
    BoundaryAppend(gs, g, 0);
    KeepsNew(gs, last, g, last');
    TargetsExtended(gs, last, gs', last', i);
    EncodeNew(gs, last, g, last');
    EncodeSize(gs, gs);
    assert gs'[..|gs|] == gs;
    assert Kinds([i]) == [KindOf(i)];
  }

  /** Folding a primitive into the last VM instruction keeps all stable starts. */
  lemma {:induction false} KeepsFold(pre: seq<Group>, g: Group, g': Group, last: Option<nat>, last': Option<nat>)
    requires g.items != [] && g'.items != [] && Foldable(pre + [g], last)
    ensures Keeps(pre + [g], last, pre + [g'], last')
    ensures forall b | Stable(pre + [g], last, b) :: Boundary(pre, b)
  {
    var gs, gs' := pre + [g], pre + [g'];
    assert gs[..|pre|] == pre && gs'[..|pre|] == pre;
    forall b | Stable(gs, last, b)
      ensures Boundary(pre, b) && Stable(gs', last', b) && AddrOf(gs', b) == AddrOf(gs, b)
    {
      BoundaryAppend(pre, g, b);
      BoundaryAppend(pre, g', b);
    }
  }

  lemma {:induction false} StraightExtended(items: seq<Instr>, i: Instr, k: Kind, ks: seq<Kind>, ks': seq<Kind>)
    requires ks == Kinds(items) && NoControl(ks) && ks' == ks + [k] && k == KindOf(i)
    ensures Kinds(items + [i]) == ks' && StraightLine(items + [i])
    ensures forall j | 0 <= j < |items| :: !items[j].Control()
  {
    forall j | 0 <= j < |items| ensures !items[j].Control() { assert !ks[j].Control(); }
  }

  lemma {:induction false} EncodeFold(
    pre: seq<Group>, g: Group, g': Group, last: Option<nat>, last': Option<nat>, i: Instr)
    requires g'.items == g.items + [i] && TargetsStable(pre + [g], last) && Keeps(pre + [g], last, pre + [g'], last')
    requires forall j | 0 <= j < |g.items| :: !g.items[j].Control()
    requires i.Control() && i.target.Some? ==> Stable(pre + [g], last, i.target.value)
    ensures Encode(pre + [g], pre + [g]) == Encode(pre + [g], pre) + [InstCell(g.inst)] + Args(pre + [g], g.items)
    ensures Encode(pre + [g'], pre + [g'])
            == Encode(pre + [g], pre) + [InstCell(g'.inst)] + (Args(pre + [g], g.items) + Args(pre + [g], [i]))
  {
    var gs, gs' := pre + [g], pre + [g'];
    EncodeAppend(gs, pre, g);
    EncodeAppend(gs', pre, g');
    assert Flat(gs) == Flat(pre) + g.items by { assert gs[..|pre|] == pre; }
    assert forall k | 0 <= k < |Flat(pre)| :: Flat(gs)[k] == Flat(pre)[k];
    StableTargetsSame(gs, last, gs', last', Flat(pre));
    EncodeSame(gs, gs', pre);
    ArgsAppend(gs', g.items, [i]);
    ArgsSame(gs, gs', g.items);
    StableTargetsSame(gs, last, gs', last', [i]);
    ArgsSame(gs, gs', [i]);
  }

  lemma {:induction false} FoldInstruction(
    ms: Meanings, pre: seq<Group>, g: Group, last: Option<nat>, code: seq<Cell>, combo: Inst, i: Instr)
    requires BufferOk(ms, pre + [g], last, code) && last.Some?
    requires combo in ms && ms[combo] == ms[g.inst] + [KindOf(i)] && NoControl(ms[g.inst])
    requires i.Control() && i.target.Some? ==> Stable(pre + [g], last, i.target.value)
    ensures last.value < |code| && code[last.value] == InstCell(g.inst)
    ensures var gs' := pre + [Group(combo, g.items + [i])];
            && BufferOk(ms, gs', last, code[last.value := InstCell(combo)] + Args(pre + [g], [i]))
            && Flat(gs') == Flat(pre + [g]) + [i] && Keeps(pre + [g], last, gs', last)
  {
    var gs, g' := pre + [g], Group(combo, g.items + [i]);
    var gs' := pre + [g'];
    assert gs[|pre|] == g && gs[..|pre|] == pre && gs'[..|pre|] == pre;
    StraightExtended(g.items, i, KindOf(i), ms[g.inst], ms[combo]);
    BoundaryAppend(pre, g, 0);
    BoundaryAppend(pre, g', 0);
    assert Foldable(gs, last);
    KeepsFold(pre, g, g', last, last);
    TargetsExtended(gs, last, gs', last, i);
    EncodeFold(pre, g, g', last, last, i);
    EncodeSize(gs, pre);
    FoldGroups(ms, pre, g, g');
    CellsFold(code, Encode(gs, pre), g.inst, combo, Args(gs, g.items), Args(gs, [i]));
    assert LastOk(gs', last);
  }

  lemma {:induction false} CellsFold(
    code: seq<Cell>, head: seq<Cell>, n: Inst, combo: Inst, args: seq<Cell>, arg: seq<Cell>)
    requires code == head + [InstCell(n)] + args
    ensures code[|head|] == InstCell(n)
    ensures code[|head| := InstCell(combo)] + arg == head + [InstCell(combo)] + (args + arg)
  {
  }

  lemma {:induction false} FoldGroups(ms: Meanings, pre: seq<Group>, g: Group, g': Group)
    requires GroupsOk(ms, pre + [g]) && g'.items != [] && g'.inst in ms && ms[g'.inst] == Kinds(g'.items)
             && StraightLine(g'.items)
    ensures GroupsOk(ms, pre + [g'])
  {
    forall k | 0 <= k < |pre| ensures (pre + [g'])[k] == (pre + [g])[k] {}
  }

  // ----- back-patching -----

  function Patched(i: Instr, t: nat): Instr {
    match i
    case IZBranch(_) => IZBranch(Some(t))
    case IBranch(_) => IBranch(Some(t))
    case _ => i
  }

  /** `slot` is the address behind the argument of branch number `j`, which is
      the last primitive of its VM instruction. */
  ghost predicate SlotFor(gs: seq<Group>, last: Option<nat>, slot: nat, j: nat) {
    && j < |Flat(gs)| && Flat(gs)[j].Control() && Flat(gs)[j].target.None?
    && Stable(gs, last, j + 1) && slot == AddrOf(gs, j + 1)
  }

  lemma {:induction false} SlotKept(
    gs: seq<Group>, last: Option<nat>, gs': seq<Group>, last': Option<nat>, slot: nat, j: nat)
    requires SlotFor(gs, last, slot, j) && Keeps(gs, last, gs', last')
    requires j < |Flat(gs')| && Flat(gs')[j] == Flat(gs)[j]
    ensures SlotFor(gs', last', slot, j)
  {
  }

  /** Two buffers that differ in targets only. */
  ghost predicate SameShape(gs: seq<Group>, gs': seq<Group>) {
    |gs| == |gs'| && forall k | 0 <= k < |gs| :: gs[k].inst == gs'[k].inst && Kinds(gs[k].items) == Kinds(gs'[k].items)
  }

  lemma {:induction false} ShapeSame(gs: seq<Group>, gs': seq<Group>, b: nat)
    requires SameShape(gs, gs')
    ensures |Flat(gs)| == |Flat(gs')| && Size(gs) == Size(gs')
    ensures Boundary(gs, b) == Boundary(gs', b) && AddrOf(gs, b) == AddrOf(gs', b)
    decreases |gs|
  {
    if gs != [] {
      assert |gs[|gs|-1].items| == |Kinds(gs[|gs|-1].items)| == |gs'[|gs|-1].items|;
      ShapeSame(gs[..|gs|-1], gs'[..|gs|-1], b);
    }
  }

  /** `items` take the place of what `P` has from `a` on. */
  ghost predicate Overwritten(P: seq<Instr>, P': seq<Instr>, a: nat, items: seq<Instr>) {
    && |P'| == |P| && a + |items| <= |P|
    && forall k | 0 <= k < |P| :: P'[k] == if a <= k < a + |items| then items[k - a] else P[k]
  }

  lemma {:induction false} FlatUpdate(gs: seq<Group>, i: nat, g: Group)
    requires i < |gs| && |g.items| == |gs[i].items|
    ensures Overwritten(Flat(gs), Flat(gs[i := g]), |Flat(gs[..i])|, g.items)
    decreases |gs|
  {
    var n := |gs| - 1;
    if i < n {
      assert gs[i := g][..n] == gs[..n][i := g] && gs[..n][..i] == gs[..i];
      FlatUpdate(gs[..n], i, g);
    } else {
      assert gs[i := g][..n] == gs[..n];
    }
  }

  /** Changing the last argument of a VM instruction changes one cell. */
  lemma {:induction false} EncodeUpdate(gs: seq<Group>, part: seq<Group>, i: nat, g: Group, x: Cell)
    requires i < |part| && g.inst == part[i].inst && g.items != [] && |g.items| == |part[i].items|
    requires var n := |g.items| - 1;
             && g.items[..n] == part[i].items[..n] && KindOf(g.items[n]) == KindOf(part[i].items[n])
             && KindOf(g.items[n]).HasArg() && x == ArgCell(ArgOf(gs, g.items[n]))
    ensures var slot := Size(part[..i + 1]);
            0 < slot <= |Encode(gs, part)| && Encode(gs, part[i := g]) == Encode(gs, part)[slot - 1 := x]
    decreases |part|
  {
    var n := |part| - 1;
    if i < n {
      assert part[i := g][..n] == part[..n][i := g] && part[..n][..i + 1] == part[..i + 1];
      EncodeUpdate(gs, part[..n], i, g, x);
      CellsUpdate(
        Encode(gs, part[..n]), [InstCell(part[n].inst)], Args(gs, part[n].items), Size(part[..i + 1]) - 1, x);
    } else {
      assert part[i := g][..n] == part[..n] && part[..i + 1] == part;
      EncodeSize(gs, part);
      ArgsLast(gs, part[n].items, g.items);
      CellsLast(Encode(gs, part[..n]) + [InstCell(g.inst)], Args(gs, part[n].items), x);
    }
  }

  lemma {:induction false} CellsUpdate(a: seq<Cell>, b: seq<Cell>, c: seq<Cell>, k: nat, x: Cell)
    requires k < |a|
    ensures a[k := x] + b + c == (a + b + c)[k := x]
  {
  }

  lemma {:induction false} CellsLast(a: seq<Cell>, b: seq<Cell>, x: Cell)
    requires b != []
    ensures a + (b[..|b| - 1] + [x]) == (a + b)[|a| + |b| - 1 := x]
  {
  }

  lemma {:induction false} ArgsLast(gs: seq<Group>, items: seq<Instr>, items': seq<Instr>)
    requires items != [] && |items'| == |items|
    requires var n := |items| - 1;
             items'[..n] == items[..n] && KindOf(items'[n]) == KindOf(items[n]) && KindOf(items[n]).HasArg()
    ensures Args(gs, items) != []
    ensures Args(gs, items') == Args(gs, items)[..|Args(gs, items)| - 1] + [ArgCell(ArgOf(gs, items'[|items| - 1]))]
  {
  }

  lemma {:induction false} EncodeShape(gs: seq<Group>, gs': seq<Group>, part: seq<Group>)
    requires SameShape(gs, gs')
    ensures Encode(gs, part) == Encode(gs', part)
  {
    forall b: nat ensures AddrOf(gs, b) == AddrOf(gs', b) { ShapeSame(gs, gs', b); }
    EncodeSame(gs, gs', part);
  }

  /** The group before a boundary ends with the primitive before it. */
  lemma {:induction false} GroupBefore(gs: seq<Group>, j: nat) returns (i: nat)
    requires NonEmpty(gs) && Boundary(gs, j + 1)
    ensures i < |gs| && gs[i].items != [] && j < |Flat(gs)| && gs[i].items[|gs[i].items| - 1] == Flat(gs)[j]
    ensures |Flat(gs[..i])| + |gs[i].items| == j + 1 && Size(gs[..i + 1]) == AddrOf(gs, j + 1)
  {
    var e := FindGroup(gs, j + 1);
    BoundaryBound(gs, j + 1);
    assert gs[..0] == [];
    i := e - 1;
    LastItem(gs, i, j);
  }

  lemma {:induction false} LastItem(gs: seq<Group>, i: nat, j: nat)
    requires NonEmpty(gs) && i < |gs| && |Flat(gs[..i + 1])| == j + 1 && j < |Flat(gs)|
    ensures gs[i].items != [] && gs[i].items[|gs[i].items| - 1] == Flat(gs)[j]
    ensures |Flat(gs[..i])| + |gs[i].items| == j + 1
  {
    GroupPart(gs, i);
    PartIndex(Flat(gs), |Flat(gs[..i])|, gs[i].items, |gs[i].items| - 1);
  }

  function WithLast(g: Group, i: Instr): (g': Group)
    requires g.items != [] && KindOf(i) == KindOf(g.items[|g.items| - 1])
    ensures Kinds(g'.items) == Kinds(g.items) && |g'.items| == |g.items|
  {
    Group(g.inst, g.items[..|g.items| - 1] + [i])
  }

  lemma {:induction false} ShapeKept(ms: Meanings, gs: seq<Group>, last: Option<nat>, gs': seq<Group>)
    requires SameShape(gs, gs') && GroupsOk(ms, gs) && LastOk(gs, last)
    ensures GroupsOk(ms, gs') && LastOk(gs', last) && Foldable(gs', last) == Foldable(gs, last)
  {
    forall k | 0 <= k < |gs| ensures |gs[k].items| == |gs'[k].items| && GroupOk(ms, gs'[k]) {
      assert GroupOk(ms, gs[k]);
      KindsKept(gs[k].items, gs'[k].items);
    }
    if gs != [] {
      ShapeSame(gs[..|gs| - 1], gs'[..|gs| - 1], 0);
      KindsKept(gs[|gs| - 1].items, gs'[|gs| - 1].items);
    }
  }

  lemma {:induction false} KindsKept(items: seq<Instr>, items': seq<Instr>)
    requires Kinds(items) == Kinds(items')
    ensures |items| == |items'| && forall k | 0 <= k < |items| :: items[k].Control() == items'[k].Control()
    ensures StraightLine(items) ==> StraightLine(items')
  {
    assert |items| == |Kinds(items)| == |Kinds(items')|;
    forall k | 0 <= k < |items| ensures items[k].Control() == items'[k].Control() {
      assert Kinds(items)[k] == Kinds(items')[k];
    }
  }

  lemma {:induction false} ShapeStable(gs: seq<Group>, last: Option<nat>, gs': seq<Group>)
    requires SameShape(gs, gs') && !Foldable(gs, last) && !Foldable(gs', last)
    ensures forall b: nat :: Stable(gs, last, b) == Stable(gs', last, b) && AddrOf(gs, b) == AddrOf(gs', b)
    ensures Keeps(gs, last, gs', last)
  {
    forall b: nat
      ensures Boundary(gs, b) == Boundary(gs', b) && AddrOf(gs, b) == AddrOf(gs', b)
    {
      ShapeSame(gs, gs', b);
    }
  }

  lemma {:induction false} PatchedTargets(gs: seq<Group>, last: Option<nat>, gs': seq<Group>, j: nat)
    requires TargetsStable(gs, last) && !Foldable(gs, last) && j < |Flat(gs)|
    requires forall b: nat :: Stable(gs, last, b) == Stable(gs', last, b)
    requires Flat(gs') == Flat(gs)[j := Patched(Flat(gs)[j], |Flat(gs)|)]
    ensures TargetsStable(gs', last)
  {
    assert Stable(gs, last, |Flat(gs)|);
  }

  /** Storing the current address in a slot changes the target of that branch
      and nothing else. */
  lemma {:induction false} PatchBuffer(
    ms: Meanings, gs: seq<Group>, last: Option<nat>, code: seq<Cell>, slot: nat, j: nat)
    returns (gs': seq<Group>)
    requires BufferOk(ms, gs, last, code) && SlotFor(gs, last, slot, j) && !Foldable(gs, last)
    ensures 0 < slot <= |code| && BufferOk(ms, gs', last, code[slot - 1 := ArgCell(|code|)])
    ensures Flat(gs') == Flat(gs)[j := Patched(Flat(gs)[j], |Flat(gs)|)]
    ensures Keeps(gs, last, gs', last) && !Foldable(gs', last)
  {
    var i := GroupBefore(gs, j);
    var p := Patched(Flat(gs)[j], |Flat(gs)|);
    var g := WithLast(gs[i], p);
    gs' := gs[i := g];
    ShapeKept(ms, gs, last, gs');
    ShapeStable(gs, last, gs');
    PatchedFlat(gs, gs', i, j, g, p);
    EncodeShape(gs, gs', gs');
    EncodeUpdate(gs, gs, i, g, ArgCell(ArgOf(gs, p)));
    EncodeSize(gs, gs);
    PatchedTargets(gs, last, gs', j);
    assert ArgOf(gs, p) == AddrOf(gs, |Flat(gs)|) == |code|;
  }

  lemma {:induction false} PatchedFlat(gs: seq<Group>, gs': seq<Group>, i: nat, j: nat, g: Group, p: Instr)
    requires i < |gs| && gs[i].items != [] && KindOf(p) == KindOf(gs[i].items[|gs[i].items| - 1])
    requires g == WithLast(gs[i], p) && gs' == gs[i := g] && NonEmpty(gs)
    requires j < |Flat(gs)| && |Flat(gs[..i])| + |gs[i].items| == j + 1
    ensures Flat(gs') == Flat(gs)[j := p]
  {
    FlatUpdate(gs, i, g);
    GroupPart(gs, i);
    PatchedAt(Flat(gs), Flat(gs'), |Flat(gs[..i])|, gs[i].items, g.items, p);
  }

  lemma {:induction false} PatchedAt(
    P: seq<Instr>, P': seq<Instr>, a: nat, items: seq<Instr>, items': seq<Instr>, p: Instr)
    requires PartAt(P, a, items) && items != [] && items' == items[..|items| - 1] + [p] && Overwritten(P, P', a, items')
    ensures P' == P[a + |items| - 1 := p]
  {
    forall k | 0 <= k < |P| ensures P'[k] == P[a + |items| - 1 := p][k] {
      if a <= k < a + |items| - 1 { PartIndex(P, a, items, k - a); }
    }
  }
}
