/** The code buffer: VM instructions, which stand for one or more primitives,
    followed by their arguments (vmgen-ex/mini-vm.i, vmgen-ex/peephole.c). */
module ThreadedCode {
  import opened Basics
  import opened MiniLanguage
  import opened FlatMachine

  /** Primitives without their arguments. */
  datatype Kind = KLit | KLoad | KStore | KBin(op: BinOp) | KUn(uop: UnOp) | KPrint | KDrop | KZBranch | KBranch {
    predicate Control() { KZBranch? || KBranch? }
    predicate HasArg() { KLit? || KLoad? || KStore? || KZBranch? || KBranch? }
  }

  function KindOf(i: Instr): Kind {
    match i
    case ILit(_) => KLit
    case ILoad(_) => KLoad
    case IStore(_) => KStore
    case IBin(op) => KBin(op)
    case IUn(op) => KUn(op)
    case IPrint => KPrint
    case IDrop => KDrop
    case IZBranch(_) => KZBranch
    case IBranch(_) => KBranch
  }

  function Kinds(items: seq<Instr>): (ks: seq<Kind>)
    ensures |ks| == |items|
    ensures forall k | 0 <= k < |ks| :: ks[k] == KindOf(items[k])
  {
    seq(|items|, k requires 0 <= k < |items| => KindOf(items[k]))
  }

  /** A VM instruction number. */
  type Inst = nat

  /** The content of a cell: an instruction or an argument. */
  datatype Cell = InstCell(n: Inst) | ArgCell(v: int)

  /** What each VM instruction stands for. */
  type Meanings = map<Inst, seq<Kind>>

  // ----- the machine -----

  /** The argument of a primitive of kind `k`, read from a cell.  Branch targets
      are addresses of cells here. */
  function WithArg(k: Kind, v: int): Instr {
    match k
    case KLit => ILit(v)
    case KLoad => ILoad(v)
    case KStore => IStore(v)
    case KBin(op) => IBin(op)
    case KUn(op) => IUn(op)
    case KPrint => IPrint
    case KDrop => IDrop
    case KZBranch => IZBranch(if v >= 0 then Some(v) else None)
    case KBranch => IBranch(if v >= 0 then Some(v) else None)
  }

  /** The primitives of an instruction, with arguments read from `ip` on. */
  function Fetch(code: seq<Cell>, ip: nat, ks: seq<Kind>): Option<seq<Instr>>
    decreases |ks|, 1
  {
    if ks == [] then Some([]) else FetchHere(code, ip, ks)
  }

  function FetchHere(code: seq<Cell>, ip: nat, ks: seq<Kind>): Option<seq<Instr>>
    requires ks != []
    decreases |ks|, 0
  {
    if ks[0].HasArg() then
      if ip >= |code| || !code[ip].ArgCell? then None
      else
        match Fetch(code, ip + 1, ks[1..])
        case None => None
        case Some(rest) => Some([WithArg(ks[0], code[ip].v)] + rest)
    else
      match Fetch(code, ip, ks[1..])
      case None => None
      case Some(rest) => Some([WithArg(ks[0], 0)] + rest)
  }

  function ArgCount(ks: seq<Kind>): nat {
    if ks == [] then 0 else ArgCount(ks[..|ks|-1]) + (if ks[|ks|-1].HasArg() then 1 else 0)
  }

  /** Executes primitives one after the other; a taken branch leaves them. */
  function ExecItems(alu: Alu, items: seq<Instr>, d: Data, next: nat): Option<State>
    decreases |items|, 1
  {
    if items == [] then Some(State(next, d)) else ExecHere(alu, items[0], items[1..], d, next)
  }

  function ExecHere(alu: Alu, i: Instr, rest: seq<Instr>, d: Data, next: nat): Option<State>
    decreases |rest| + 1, 0
  {
    match Do(alu, i, d)
    case None => None
    case Some(d') =>
      if !Taken(i, d) then ExecItems(alu, rest, d', next)
      else if i.target.None? then None
      else Some(State(i.target.value, d'))
  }

  /** One VM instruction. */
  function MStep(alu: Alu, ms: Meanings, code: seq<Cell>, s: State): Option<State> {
    if s.pc >= |code| || !code[s.pc].InstCell? || code[s.pc].n !in ms then None
    else
      var ks := ms[code[s.pc].n];
      match Fetch(code, s.pc + 1, ks)
      case None => None
      case Some(items) => ExecItems(alu, items, s.d, s.pc + 1 + ArgCount(ks))
  }

  function MRun(alu: Alu, ms: Meanings, code: seq<Cell>, k: nat, s: State): Option<State>
    decreases k
  {
    if k == 0 then Some(s)
    else
      match MStep(alu, ms, code, s)
      case None => None
      case Some(s') => MRun(alu, ms, code, k - 1, s')
  }

  ghost predicate MReaches(alu: Alu, ms: Meanings, code: seq<Cell>, s: State, s': State) {
    exists k: nat :: MRun(alu, ms, code, k, s) == Some(s')
  }

  // ----- layout -----

  /** A VM instruction in the buffer and the primitives that it stands for. */
  datatype Group = Group(inst: Inst, items: seq<Instr>)

  /** All primitives of the buffer. */
  function Flat(gs: seq<Group>): seq<Instr> {
    if gs == [] then [] else Flat(gs[..|gs|-1]) + gs[|gs|-1].items
  }

  /** The number of cells. */
  function Size(gs: seq<Group>): nat {
    if gs == [] then 0 else Size(gs[..|gs|-1]) + 1 + ArgCount(Kinds(gs[|gs|-1].items))
  }

  /** `b` is the number of the first primitive of a VM instruction, or of the
      primitive behind the last one. */
  ghost predicate Boundary(gs: seq<Group>, b: nat) {
    |Flat(gs)| == b || (gs != [] && Boundary(gs[..|gs|-1], b))
  }

  /** The address of the VM instruction that starts with primitive `b`. */
  function AddrOf(gs: seq<Group>, b: nat): nat {
    if |Flat(gs)| == b || gs == [] then Size(gs) else AddrOf(gs[..|gs|-1], b)
  }

  /** The argument cell of a primitive; `gs` is the whole buffer.  A missing
      branch target is 0. */
  function ArgOf(gs: seq<Group>, i: Instr): int {
    match i
    case ILit(x) => x
    case ILoad(o) => o
    case IStore(o) => o
    case IZBranch(t) => if t.None? then 0 else AddrOf(gs, t.value)
    case IBranch(t) => if t.None? then 0 else AddrOf(gs, t.value)
    case _ => 0
  }

  function Args(gs: seq<Group>, items: seq<Instr>): seq<Cell> {
    if items == [] then []
    else
      var i := items[|items|-1];
      Args(gs, items[..|items|-1]) + (if KindOf(i).HasArg() then [ArgCell(ArgOf(gs, i))] else [])
  }

  /** The cells for the VM instructions `part` of the buffer `gs`. */
  function Encode(gs: seq<Group>, part: seq<Group>): seq<Cell> {
    if part == [] then []
    else
      var g := part[|part|-1];
      Encode(gs, part[..|part|-1]) + [InstCell(g.inst)] + Args(gs, g.items)
  }

  lemma {:induction false} ArgsSize(gs: seq<Group>, items: seq<Instr>)
    ensures |Args(gs, items)| == ArgCount(Kinds(items))
  {
    if items != [] {
      ArgsSize(gs, items[..|items|-1]);
      assert Kinds(items)[..|Kinds(items)|-1] == Kinds(items[..|items|-1]);
    }
  }

  lemma {:induction false} EncodeSize(gs: seq<Group>, part: seq<Group>)
    ensures |Encode(gs, part)| == Size(part)
  {
    if part != [] {
      EncodeSize(gs, part[..|part|-1]);
      ArgsSize(gs, part[|part|-1].items);
    }
  }

  // ----- boundaries -----

  ghost predicate NonEmpty(gs: seq<Group>) {
    forall i | 0 <= i < |gs| :: gs[i].items != []
  }

  lemma {:induction false} BoundaryBound(gs: seq<Group>, b: nat)
    requires Boundary(gs, b)
    ensures b <= |Flat(gs)|
  {
    if |Flat(gs)| != b { BoundaryBound(gs[..|gs|-1], b); }
  }

  lemma {:induction false} BoundaryAppend(gs: seq<Group>, g: Group, b: nat)
    requires g.items != []
    ensures Flat(gs + [g]) == Flat(gs) + g.items
    ensures Size(gs + [g]) == Size(gs) + 1 + ArgCount(Kinds(g.items))
    ensures Boundary(gs + [g], b) <==> Boundary(gs, b) || b == |Flat(gs)| + |g.items|
    ensures Boundary(gs, b) ==> AddrOf(gs + [g], b) == AddrOf(gs, b)
  {
    assert (gs + [g])[..|gs|] == gs;
    if Boundary(gs, b) { BoundaryBound(gs, b); }
  }

  /** A boundary is where some VM instruction starts. */
  lemma {:induction false} FindGroup(gs: seq<Group>, b: nat) returns (i: nat)
    requires Boundary(gs, b)
    ensures i <= |gs| && |Flat(gs[..i])| == b && AddrOf(gs, b) == Size(gs[..i])
  {
    if |Flat(gs)| == b {
      i := |gs|;
      assert gs[..i] == gs;
    } else {
      i := FindGroup(gs[..|gs|-1], b);
      assert gs[..|gs|-1][..i] == gs[..i];
    }
  }

  lemma {:induction false} PrefixNext(gs: seq<Group>, i: nat)
    requires i < |gs|
    ensures Flat(gs[..i+1]) == Flat(gs[..i]) + gs[i].items
    ensures Size(gs[..i+1]) == Size(gs[..i]) + 1 + ArgCount(Kinds(gs[i].items))
  {
    assert gs[..i+1][..i] == gs[..i];
  }

  lemma {:induction false} FlatPrefix(gs: seq<Group>, i: nat)
    requires i <= |gs|
    ensures |Flat(gs[..i])| <= |Flat(gs)| && Flat(gs)[..|Flat(gs[..i])|] == Flat(gs[..i])
    decreases |gs|
  {
    if i < |gs| {
      var shorter := gs[..|gs|-1];
      assert shorter[..i] == gs[..i];
      FlatPrefix(shorter, i);
    } else {
      assert gs[..i] == gs;
    }
  }

  lemma {:induction false} PrefixBoundary(gs: seq<Group>, i: nat)
    requires i <= |gs| && NonEmpty(gs)
    ensures Boundary(gs, |Flat(gs[..i])|) && AddrOf(gs, |Flat(gs[..i])|) == Size(gs[..i])
    decreases |gs|
  {
    if i < |gs| {
      var shorter := gs[..|gs|-1];
      assert shorter[..i] == gs[..i];
      FlatPrefix(shorter, i);
      PrefixBoundary(shorter, i);
    } else {
      assert gs[..i] == gs;
    }
  }

  // ----- fetching -----

  lemma {:induction false} ArgsAppend(gs: seq<Group>, a: seq<Instr>, b: seq<Instr>)
    ensures Args(gs, a + b) == Args(gs, a) + Args(gs, b)
  {
    if b == [] {
      assert a + b == a;
    } else {
      assert (a + b)[..|a+b|-1] == a + b[..|b|-1];
      ArgsAppend(gs, a, b[..|b|-1]);
    }
  }

  lemma {:induction false} ArgsOne(gs: seq<Group>, i: Instr)
    ensures Args(gs, [i]) == if KindOf(i).HasArg() then [ArgCell(ArgOf(gs, i))] else []
  {
    assert [i][..0] == [];
  }

  /** A primitive with its target turned into an address. */
  function Relocated(gs: seq<Group>, i: Instr): Instr {
    match i
    case IZBranch(t) => if t.None? then i else IZBranch(Some(AddrOf(gs, t.value)))
    case IBranch(t) => if t.None? then i else IBranch(Some(AddrOf(gs, t.value)))
    case _ => i
  }

  function RelocatedAll(gs: seq<Group>, items: seq<Instr>): (r: seq<Instr>)
    ensures |r| == |items|
    ensures forall k | 0 <= k < |r| :: r[k] == Relocated(gs, items[k])
  {
    seq(|items|, k requires 0 <= k < |items| => Relocated(gs, items[k]))
  }

  ghost predicate TargetsKnown(items: seq<Instr>) {
    forall k | 0 <= k < |items| && items[k].Control() :: items[k].target.Some?
  }

  /** `cells` stand in `code` from `ip` on. */
  ghost predicate CellsAt(code: seq<Cell>, ip: nat, cells: seq<Cell>) {
    ip + |cells| <= |code| && forall k {:trigger cells[k]} | 0 <= k < |cells| :: code[ip + k] == cells[k]
  }

  lemma {:induction false} CellsSplit(code: seq<Cell>, ip: nat, a: seq<Cell>, b: seq<Cell>)
    requires CellsAt(code, ip, a + b)
    ensures CellsAt(code, ip, a) && CellsAt(code, ip + |a|, b)
    ensures |a| == 1 ==> code[ip] == a[0]
  {
    var c := a + b;
    assert forall k | 0 <= k < |a| :: c[k] == a[k];
    assert forall k | 0 <= k < |b| :: c[|a| + k] == b[k];
  }

  lemma {:induction false} RelocatedCons(gs: seq<Group>, items: seq<Instr>)
    requires items != []
    ensures RelocatedAll(gs, items) == [Relocated(gs, items[0])] + RelocatedAll(gs, items[1..])
    ensures Kinds(items) == [KindOf(items[0])] + Kinds(items[1..])
  {
  }

  lemma {:induction false} ArgsCons(gs: seq<Group>, items: seq<Instr>)
    requires items != []
    ensures Args(gs, items) == Args(gs, [items[0]]) + Args(gs, items[1..])
  {
    assert items == [items[0]] + items[1..];
    ArgsAppend(gs, [items[0]], items[1..]);
  }

  lemma {:induction false} WithArgRelocated(gs: seq<Group>, i: Instr)
    requires i.Control() ==> i.target.Some?
    ensures WithArg(KindOf(i), if KindOf(i).HasArg() then ArgOf(gs, i) else 0) == Relocated(gs, i)
  {
  }

  ghost predicate Fetches(code: seq<Cell>, ip: nat, ks: seq<Kind>, items: seq<Instr>) {
    Fetch(code, ip, ks) == Some(items)
  }

  lemma {:induction false} FetchCons(code: seq<Cell>, ip: nat, k: Kind, v: int, ks: seq<Kind>, rest: seq<Instr>)
    requires if k.HasArg() then ip < |code| && code[ip] == ArgCell(v) else v == 0
    requires Fetches(code, if k.HasArg() then ip + 1 else ip, ks, rest)
    ensures Fetches(code, ip, [k] + ks, [WithArg(k, v)] + rest)
  {
    assert ([k] + ks)[1..] == ks;
    assert FetchHere(code, ip, [k] + ks) == Some([WithArg(k, v)] + rest);
  }

  lemma {:induction false} FetchItem(
    code: seq<Cell>, ip: nat, gs: seq<Group>, i: Instr, ks: seq<Kind>, rest: seq<Instr>)
    requires CellsAt(code, ip, Args(gs, [i])) && (i.Control() ==> i.target.Some?)
    requires Fetches(code, ip + |Args(gs, [i])|, ks, rest)
    ensures Fetches(code, ip, [KindOf(i)] + ks, [Relocated(gs, i)] + rest)
  {
    ArgsOne(gs, i);
    WithArgRelocated(gs, i);
    if KindOf(i).HasArg() { assert code[ip + 0] == Args(gs, [i])[0]; }
    FetchCons(code, ip, KindOf(i), if KindOf(i).HasArg() then ArgOf(gs, i) else 0, ks, rest);
  }

  lemma {:induction false} CellsCons(code: seq<Cell>, ip: nat, gs: seq<Group>, items: seq<Instr>)
    requires CellsAt(code, ip, Args(gs, items)) && items != []
    ensures CellsAt(code, ip, Args(gs, [items[0]]))
    ensures CellsAt(code, ip + |Args(gs, [items[0]])|, Args(gs, items[1..]))
  {
    ArgsCons(gs, items);
    CellsSplit(code, ip, Args(gs, [items[0]]), Args(gs, items[1..]));
  }

  lemma {:induction false} FetchMore(code: seq<Cell>, ip: nat, gs: seq<Group>, items: seq<Instr>)
    requires items != [] && CellsAt(code, ip, Args(gs, [items[0]])) && TargetsKnown(items)
    requires Fetches(code, ip + |Args(gs, [items[0]])|, Kinds(items[1..]), RelocatedAll(gs, items[1..]))
    ensures Fetches(code, ip, Kinds(items), RelocatedAll(gs, items))
  {
    RelocatedCons(gs, items);
    FetchItem(code, ip, gs, items[0], Kinds(items[1..]), RelocatedAll(gs, items[1..]));
  }

  lemma {:induction false} FetchArgs(code: seq<Cell>, ip: nat, gs: seq<Group>, items: seq<Instr>)
    requires CellsAt(code, ip, Args(gs, items)) && TargetsKnown(items)
    ensures Fetches(code, ip, Kinds(items), RelocatedAll(gs, items))
    decreases |items|
  {
    if items != [] {
      CellsCons(code, ip, gs, items);
      FetchArgs(code, ip + |Args(gs, [items[0]])|, gs, items[1..]);
      FetchMore(code, ip, gs, items);
    }
  }

  /** A VM instruction of the buffer `gs` stands in `code` at `ip`. */
  ghost predicate GroupAt(code: seq<Cell>, gs: seq<Group>, ip: nat, g: Group) {
    ip < |code| && code[ip] == InstCell(g.inst) && CellsAt(code, ip + 1, Args(gs, g.items))
  }

  lemma {:induction false} EncodeAt(gs: seq<Group>, part: seq<Group>, i: nat)
    requires i < |part|
    ensures GroupAt(Encode(gs, part), gs, Size(part[..i]), part[i])
    decreases |part|
  {
    var n := |part| - 1;
    var g := part[n];
    EncodeSize(gs, part[..n]);
    if i < n {
      assert part[..n][..i] == part[..i];
      EncodeAt(gs, part[..n], i);
      GroupExtended(Encode(gs, part[..n]), gs, Size(part[..i]), part[i], [InstCell(g.inst)], Args(gs, g.items));
    } else {
      assert part[..i] == part[..n];
      GroupAtEnd(Encode(gs, part[..n]), gs, g);
    }
  }

  lemma {:induction false} GroupAtEnd(code: seq<Cell>, gs: seq<Group>, g: Group)
    ensures GroupAt(code + [InstCell(g.inst)] + Args(gs, g.items), gs, |code|, g)
  {
  }

  lemma {:induction false} GroupExtended(
    code: seq<Cell>, gs: seq<Group>, ip: nat, g: Group, more: seq<Cell>, more': seq<Cell>)
    requires GroupAt(code, gs, ip, g)
    ensures GroupAt(code + more + more', gs, ip, g)
  {
    CellsExtended(code, more, more', ip + 1, Args(gs, g.items));
  }

  lemma {:induction false} CellsExtended(code: seq<Cell>, more: seq<Cell>, more': seq<Cell>, ip: nat, cells: seq<Cell>)
    requires CellsAt(code, ip, cells)
    ensures CellsAt(code + more + more', ip, cells)
  {
    assert forall k | 0 <= k < |code| :: (code + more + more')[k] == code[k];
  }

  // ----- the machine runs the primitives -----

  /** The buffer is complete: instructions mean what they stand for, only the
      last primitive of an instruction may branch, and every branch goes to the
      start of an instruction. */
  ghost predicate Complete(ms: Meanings, gs: seq<Group>) {
    && NonEmpty(gs)
    && (forall i | 0 <= i < |gs| :: GroupOk(ms, gs[i]))
    && (forall k | 0 <= k < |Flat(gs)| && Flat(gs)[k].Control() ::
          Flat(gs)[k].target.Some? && Boundary(gs, Flat(gs)[k].target.value))
  }

  ghost predicate GroupOk(ms: Meanings, g: Group) {
    g.inst in ms && ms[g.inst] == Kinds(g.items) && StraightLine(g.items)
  }

  ghost predicate StraightLine(items: seq<Instr>) {
    forall k | 0 <= k < |items| - 1 :: !items[k].Control()
  }

  lemma {:induction false} ItemsTail(P: seq<Instr>, pc: nat, items: seq<Instr>)
    requires PartAt(P, pc, items) && items != [] && StraightLine(items)
    ensures pc < |P| && P[pc] == items[0] && PartAt(P, pc + 1, items[1..]) && StraightLine(items[1..])
    ensures |items| > 1 ==> !items[0].Control()
  {
    assert items == [items[0]] + items[1..];
    PartSplit(P, pc, [items[0]], items[1..]);
    PartOne(P, pc, items[0]);
  }

  /** One primitive in the flat program and among the items of an instruction. */
  lemma {:induction false} ItemStep(
    alu: Alu, gs: seq<Group>, P: seq<Instr>, pc: nat, i: Instr, rest: seq<Instr>, d: Data, next: nat, s1: State)
    requires pc < |P| && P[pc] == i && Step(alu, P, State(pc, d)) == Some(s1)
    ensures ExecItems(alu, [Relocated(gs, i)] + rest, d, next) ==
            if Taken(i, d) then Some(State(AddrOf(gs, s1.pc), s1.d)) else ExecItems(alu, rest, s1.d, next)
    ensures if Taken(i, d) then i.Control() && i.target == Some(s1.pc) else s1.pc == pc + 1
  {
    var i' := Relocated(gs, i);
    assert ([i'] + rest)[1..] == rest;
    assert ExecItems(alu, [i'] + rest, d, next) == ExecHere(alu, i', rest, d, next);
    assert Do(alu, Relocated(gs, i), d) == Do(alu, i, d);
  }

  lemma {:induction false} RunFirst(alu: Alu, P: seq<Instr>, k: nat, s: State, s': State) returns (s1: State)
    requires k > 0 && Run(alu, P, k, s) == Some(s')
    ensures Step(alu, P, s) == Some(s1) && Run(alu, P, k - 1, s1) == Some(s')
    ensures k == 1 ==> s1 == s'
  {
    s1 := Step(alu, P, s).value;
  }

  /** An instruction goes on behind itself or to the target of its last
      primitive. */
  ghost predicate Leaves(items: seq<Instr>, pc: nat, pc': nat) {
    var n := |items|;
    pc' == pc + n || (n > 0 && items[n - 1].Control() && items[n - 1].target == Some(pc'))
  }

  ghost predicate Executes(alu: Alu, items: seq<Instr>, d: Data, next: nat, t: State) {
    ExecItems(alu, items, d, next) == Some(t)
  }

  /** Running the primitives of an instruction to its end, or to where its last
      primitive branches, is what executing its items does. */
  lemma {:induction false} ItemsRun(
    alu: Alu, gs: seq<Group>, P: seq<Instr>, items: seq<Instr>, pc: nat, d: Data, s': State, next: nat)
    requires PartAt(P, pc, items) && StraightLine(items) && next == AddrOf(gs, pc + |items|)
    requires Run(alu, P, |items|, State(pc, d)) == Some(s')
    ensures Executes(alu, RelocatedAll(gs, items), d, next, State(AddrOf(gs, s'.pc), s'.d))
    ensures Leaves(items, pc, s'.pc)
    decreases |items|
  {
    if items != [] {
      ItemsTail(P, pc, items);
      RelocatedCons(gs, items);
      var s1 := RunFirst(alu, P, |items|, State(pc, d), s');
      ItemStep(alu, gs, P, pc, items[0], RelocatedAll(gs, items[1..]), d, next, s1);
      if |items| > 1 {
        ItemsRun(alu, gs, P, items[1..], pc + 1, s1.d, s', next);
      }
    }
  }

  /** Before its last primitive an instruction runs straight on. */
  lemma {:induction false} RunInside(alu: Alu, P: seq<Instr>, items: seq<Instr>, pc: nat, d: Data, j: nat)
    requires PartAt(P, pc, items) && StraightLine(items) && j < |items|
    requires Run(alu, P, j, State(pc, d)).Some?
    ensures Run(alu, P, j, State(pc, d)).value.pc == pc + j
    decreases j
  {
    if j > 0 {
      ItemsTail(P, pc, items);
      var s1 := Step(alu, P, State(pc, d)).value;
      RunInside(alu, P, items[1..], pc + 1, s1.d, j - 1);
    }
  }

  lemma {:induction false} InsideNotBoundary(gs: seq<Group>, i: nat, b: nat)
    requires NonEmpty(gs) && i < |gs| && |Flat(gs[..i])| < b < |Flat(gs[..i+1])|
    ensures !Boundary(gs, b)
  {
    if Boundary(gs, b) {
      var j := FindGroup(gs, b);
      if j <= i { FlatMonotone(gs, j, i); } else { FlatMonotone(gs, i + 1, j); }
      assert false;
    }
  }

  lemma {:induction false} FlatMonotone(gs: seq<Group>, i: nat, j: nat)
    requires i <= j <= |gs|
    ensures |Flat(gs[..i])| <= |Flat(gs[..j])|
    decreases j - i
  {
    if i < j {
      PrefixNext(gs, i);
      FlatMonotone(gs, i + 1, j);
    }
  }

  lemma {:induction false} RunPrefix(alu: Alu, P: seq<Instr>, j: nat, k: nat, s: State)
    requires j <= k && Run(alu, P, k, s).Some?
    ensures Run(alu, P, j, s).Some?
    decreases j
  {
    if j > 0 { RunPrefix(alu, P, j - 1, k - 1, Step(alu, P, s).value); }
  }

  lemma {:induction false} GroupPart(gs: seq<Group>, i: nat)
    requires NonEmpty(gs) && i < |gs|
    ensures |gs[i].items| > 0 && |Flat(gs[..i])| + |gs[i].items| == |Flat(gs[..i+1])|
    ensures PartAt(Flat(gs), |Flat(gs[..i])|, gs[i].items)
  {
    PrefixNext(gs, i);
    FlatPrefix(gs, i + 1);
    PartOfPrefix(Flat(gs), |Flat(gs[..i+1])|, Flat(gs[..i]), gs[i].items);
  }

  lemma {:induction false} PartOfPrefix(P: seq<Instr>, n: nat, a: seq<Instr>, items: seq<Instr>)
    requires n <= |P| && P[..n] == a + items
    ensures PartAt(P, |a|, items)
  {
    assert P[|a|..n] == P[..n][|a|..];
  }

  lemma {:induction false} PartIndex(P: seq<Instr>, pc: nat, items: seq<Instr>, k: nat)
    requires PartAt(P, pc, items) && k < |items|
    ensures pc + k < |P| && P[pc + k] == items[k]
  {
    assert P[pc + k] == P[pc..pc+|items|][k];
  }

  lemma {:induction false} GroupTargets(ms: Meanings, gs: seq<Group>, i: nat)
    requires Complete(ms, gs) && i < |gs|
    ensures TargetsKnown(gs[i].items)
    ensures forall k | 0 <= k < |gs[i].items| && gs[i].items[k].Control() ::
              gs[i].items[k].target.Some? && Boundary(gs, gs[i].items[k].target.value)
  {
    GroupPart(gs, i);
    forall k | 0 <= k < |gs[i].items| && gs[i].items[k].Control()
      ensures gs[i].items[k].target.Some? && Boundary(gs, gs[i].items[k].target.value)
    {
      PartIndex(Flat(gs), |Flat(gs[..i])|, gs[i].items, k);
    }
  }

  lemma {:induction false} FetchedStep(
    alu: Alu, ms: Meanings, code: seq<Cell>, ip: nat, n: Inst, ks: seq<Kind>, items: seq<Instr>, d: Data, t: State)
    requires ip < |code| && code[ip] == InstCell(n) && n in ms && ms[n] == ks && Fetches(code, ip + 1, ks, items)
    requires Executes(alu, items, d, ip + 1 + ArgCount(ks), t)
    ensures MStep(alu, ms, code, State(ip, d)) == Some(t)
  {
  }

  lemma {:induction false} FetchAt(
    alu: Alu, ms: Meanings, code: seq<Cell>, gs: seq<Group>, ip: nat, g: Group, d: Data, t: State)
    requires GroupAt(code, gs, ip, g) && GroupOk(ms, g) && TargetsKnown(g.items)
    requires Executes(alu, RelocatedAll(gs, g.items), d, ip + 1 + ArgCount(Kinds(g.items)), t)
    ensures MStep(alu, ms, code, State(ip, d)) == Some(t)
  {
    FetchArgs(code, ip + 1, gs, g.items);
    FetchedStep(alu, ms, code, ip, g.inst, Kinds(g.items), RelocatedAll(gs, g.items), d, t);
  }

  /** One VM instruction does what its primitives do. */
  lemma {:induction false} StepAt(
    alu: Alu, ms: Meanings, code: seq<Cell>, gs: seq<Group>, ip: nat, g: Group, pc: nat, d: Data, s': State)
    requires GroupAt(code, gs, ip, g) && GroupOk(ms, g) && TargetsKnown(g.items)
    requires PartAt(Flat(gs), pc, g.items) && ip + 1 + ArgCount(Kinds(g.items)) == AddrOf(gs, pc + |g.items|)
    requires Run(alu, Flat(gs), |g.items|, State(pc, d)) == Some(s')
    ensures MStep(alu, ms, code, State(ip, d)) == Some(State(AddrOf(gs, s'.pc), s'.d))
    ensures Leaves(g.items, pc, s'.pc)
  {
    ItemsRun(alu, gs, Flat(gs), g.items, pc, d, s', AddrOf(gs, pc + |g.items|));
    FetchAt(alu, ms, code, gs, ip, g, d, State(AddrOf(gs, s'.pc), s'.d));
  }

  lemma {:induction false} LeavesToBoundary(ms: Meanings, gs: seq<Group>, i: nat, pc': nat)
    requires Complete(ms, gs) && i < |gs| && Leaves(gs[i].items, |Flat(gs[..i])|, pc')
    ensures Boundary(gs, pc')
  {
    GroupPart(gs, i);
    GroupTargets(ms, gs, i);
    PrefixBoundary(gs, i + 1);
  }

  /** One VM instruction of the buffer does what its primitives do. */
  lemma {:induction false} GroupStep(alu: Alu, ms: Meanings, gs: seq<Group>, i: nat, d: Data, s': State)
    requires Complete(ms, gs) && i < |gs|
    requires Run(alu, Flat(gs), |gs[i].items|, State(|Flat(gs[..i])|, d)) == Some(s')
    ensures MStep(alu, ms, Encode(gs, gs), State(Size(gs[..i]), d)) == Some(State(AddrOf(gs, s'.pc), s'.d))
    ensures Boundary(gs, s'.pc)
  {
    GroupPart(gs, i);
    GroupTargets(ms, gs, i);
    PrefixNext(gs, i);
    PrefixBoundary(gs, i + 1);
    EncodeAt(gs, gs, i);
    StepAt(alu, ms, Encode(gs, gs), gs, Size(gs[..i]), gs[i], |Flat(gs[..i])|, d, s');
    LeavesToBoundary(ms, gs, i, s'.pc);
  }

  /** A run from a boundary to a boundary gets at least to the end of the
      instruction that it starts with. */
  lemma {:induction false} WholeInstruction(alu: Alu, ms: Meanings, gs: seq<Group>, k: nat, i: nat, d: Data, s': State)
    requires Complete(ms, gs) && i < |gs| && Boundary(gs, s'.pc) && k > 0
    requires Run(alu, Flat(gs), k, State(|Flat(gs[..i])|, d)) == Some(s')
    ensures |gs[i].items| <= k
  {
    GroupPart(gs, i);
    if k < |gs[i].items| {
      RunInside(alu, Flat(gs), gs[i].items, |Flat(gs[..i])|, d, k);
      InsideNotBoundary(gs, i, s'.pc);
      assert false;
    }
  }

  /** A run of the primitives between boundaries is a run of the machine. */
  lemma {:induction false} Simulation(alu: Alu, ms: Meanings, gs: seq<Group>, k: nat, s: State, s': State)
    requires Complete(ms, gs) && Boundary(gs, s.pc) && Boundary(gs, s'.pc)
    requires Run(alu, Flat(gs), k, s) == Some(s')
    ensures MReaches(alu, ms, Encode(gs, gs), State(AddrOf(gs, s.pc), s.d), State(AddrOf(gs, s'.pc), s'.d))
    decreases k
  {
    var code := Encode(gs, gs);
    if k == 0 {
      assert MRun(alu, ms, code, 0, State(AddrOf(gs, s.pc), s.d)) == Some(State(AddrOf(gs, s.pc), s.d));
    } else {
      var n, t := FirstInstruction(alu, ms, gs, k, s, s');
      Simulation(alu, ms, gs, k - n, t, s');
      MPrepend(
        alu, ms, code, State(AddrOf(gs, s.pc), s.d), State(AddrOf(gs, t.pc), t.d), State(AddrOf(gs, s'.pc), s'.d));
    }
  }

  lemma {:induction false} FirstInstruction(alu: Alu, ms: Meanings, gs: seq<Group>, k: nat, s: State, s': State)
    returns (n: nat, t: State)
    requires Complete(ms, gs) && Boundary(gs, s.pc) && Boundary(gs, s'.pc) && k > 0
    requires Run(alu, Flat(gs), k, s) == Some(s')
    ensures 0 < n <= k && Run(alu, Flat(gs), k - n, t) == Some(s') && Boundary(gs, t.pc)
    ensures MStep(alu, ms, Encode(gs, gs), State(AddrOf(gs, s.pc), s.d)) == Some(State(AddrOf(gs, t.pc), t.d))
  {
    var i := FindGroup(gs, s.pc);
    NotAtEnd(alu, gs, k, s, i);
    WholeInstruction(alu, ms, gs, k, i, s.d, s');
    n := |gs[i].items|;
    RunPrefix(alu, Flat(gs), n, k, s);
    t := Run(alu, Flat(gs), n, s).value;
    RunAdd(alu, Flat(gs), n, k - n, s);
    GroupStep(alu, ms, gs, i, s.d, t);
  }

  lemma {:induction false} NotAtEnd(alu: Alu, gs: seq<Group>, k: nat, s: State, i: nat)
    requires k > 0 && Run(alu, Flat(gs), k, s).Some? && i <= |gs| && |Flat(gs[..i])| == s.pc
    ensures i < |gs|
  {
    assert gs[..|gs|] == gs;
  }

  lemma {:induction false} MPrepend(alu: Alu, ms: Meanings, code: seq<Cell>, s: State, t: State, u: State)
    requires MStep(alu, ms, code, s) == Some(t) && MReaches(alu, ms, code, t, u)
    ensures MReaches(alu, ms, code, s, u)
  {
    var k: nat :| MRun(alu, ms, code, k, t) == Some(u);
    assert MRun(alu, ms, code, k + 1, s) == Some(u);
  }

  // ----- reading the buffer back -----

  /** The primitives in the cells from `ip` on, with combinations expanded. */
  function Decode(ms: Meanings, code: seq<Cell>, ip: nat): Option<seq<Instr>>
    decreases |code| - ip
  {
    if ip >= |code| then (if ip == |code| then Some([]) else None)
    else if !code[ip].InstCell? || code[ip].n !in ms then None
    else
      var ks := ms[code[ip].n];
      match Fetch(code, ip + 1, ks)
      case None => None
      case Some(items) =>
        match Decode(ms, code, ip + 1 + ArgCount(ks))
        case None => None
        case Some(rest) => Some(items + rest)
  }

  lemma {:induction false} DecodeCons(
    ms: Meanings, code: seq<Cell>, ip: nat, n: Inst, ks: seq<Kind>, items: seq<Instr>, rest: seq<Instr>)
    requires ip < |code| && code[ip] == InstCell(n) && n in ms && ms[n] == ks
    requires Fetches(code, ip + 1, ks, items) && Decode(ms, code, ip + 1 + ArgCount(ks)) == Some(rest)
    ensures Decode(ms, code, ip) == Some(items + rest)
  {
  }

  lemma {:induction false} GroupDecode(ms: Meanings, gs: seq<Group>, i: nat, rest: seq<Instr>)
    requires Complete(ms, gs) && i < |gs| && Decode(ms, Encode(gs, gs), Size(gs[..i+1])) == Some(rest)
    ensures Decode(ms, Encode(gs, gs), Size(gs[..i])) == Some(RelocatedAll(gs, gs[i].items) + rest)
  {
    GroupTargets(ms, gs, i);
    PrefixNext(gs, i);
    EncodeAt(gs, gs, i);
    DecodeAt(ms, Encode(gs, gs), gs, Size(gs[..i]), gs[i], rest);
  }

  lemma {:induction false} DecodeAt(ms: Meanings, code: seq<Cell>, gs: seq<Group>, ip: nat, g: Group, rest: seq<Instr>)
    requires GroupAt(code, gs, ip, g) && GroupOk(ms, g) && TargetsKnown(g.items)
    requires Decode(ms, code, ip + 1 + ArgCount(Kinds(g.items))) == Some(rest)
    ensures Decode(ms, code, ip) == Some(RelocatedAll(gs, g.items) + rest)
  {
    var ks, items := Kinds(g.items), RelocatedAll(gs, g.items);
    FetchArgs(code, ip + 1, gs, g.items);
    DecodeCons(ms, code, ip, g.inst, ks, items, rest);
  }

  lemma {:induction false} FlatRest(gs: seq<Group>, i: nat)
    requires NonEmpty(gs) && i < |gs|
    ensures |Flat(gs[..i])| <= |Flat(gs[..i+1])| <= |Flat(gs)|
    ensures RelocatedAll(gs, Flat(gs)[|Flat(gs[..i])|..])
            == RelocatedAll(gs, gs[i].items) + RelocatedAll(gs, Flat(gs)[|Flat(gs[..i+1])|..])
  {
    GroupPart(gs, i);
    FlatPrefix(gs, i + 1);
    RelocatedPart(gs, Flat(gs), |Flat(gs[..i])|, gs[i].items);
  }

  lemma {:induction false} RelocatedPart(gs: seq<Group>, P: seq<Instr>, a: nat, items: seq<Instr>)
    requires PartAt(P, a, items)
    ensures RelocatedAll(gs, P[a..]) == RelocatedAll(gs, items) + RelocatedAll(gs, P[a + |items|..])
  {
    forall k | 0 <= k < |items| ensures P[a + k] == items[k] { PartIndex(P, a, items, k); }
  }

  /** Reading the buffer gives back the primitives and arguments that went in,
      however they were combined. */
  lemma {:induction false} DecodeEncode(ms: Meanings, gs: seq<Group>, i: nat)
    requires Complete(ms, gs) && i <= |gs|
    ensures |Flat(gs[..i])| <= |Flat(gs)|
    ensures Decode(ms, Encode(gs, gs), Size(gs[..i])) == Some(RelocatedAll(gs, Flat(gs)[|Flat(gs[..i])|..]))
    decreases |gs| - i
  {
    if i < |gs| {
      DecodeEncode(ms, gs, i + 1);
      FlatRest(gs, i);
      GroupDecode(ms, gs, i, RelocatedAll(gs, Flat(gs)[|Flat(gs[..i+1])|..]));
    } else {
      assert gs[..i] == gs;
      EncodeSize(gs, gs);
    }
  }
}
