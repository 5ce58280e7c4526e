/** The semantic actions of the mini parser: one pass over the statements that
    appends to the code buffer and patches branch slots (vmgen-ex/mini.y). */
module MiniCompiler {
  import opened Basics
  import opened MiniLanguage
  import opened FlatMachine
  import opened ThreadedCode
  import opened CodeGen

  // ----- undeclared variables end the compilation -----

  predicate Known(f: Frame, name: string) {
    LookupVar(f.vtab, name).Some?
  }

  predicate KnownExpr(f: Frame, e: Expr) {
    match e
    case Num(_) => true
    case Var(x) => Known(f, x)
    case Binary(_, l, r) => KnownExpr(f, l) && KnownExpr(f, r)
    case Unary(_, e) => KnownExpr(f, e)
  }

  predicate KnownStmts(f: Frame, ss: Stmts) {
    match ss
    case Nil => true
    case Cons(s, rest) => KnownStmt(f, s) && KnownStmts(f, rest)
  }

  predicate KnownStmt(f: Frame, s: Stmt) {
    match s
    case Assign(x, e) => Known(f, x) && KnownExpr(f, e)
    case Print(e) => KnownExpr(f, e)
    case Drop(e) => KnownExpr(f, e)
    case If(e, thn, els) => KnownExpr(f, e) && KnownStmts(f, thn) && (els.Else? ==> KnownStmts(f, els.ss))
    case While(e, body) => KnownExpr(f, e) && KnownStmts(f, body)
  }

  // ----- how the buffer grows -----

  /** The instruction starts that count are kept and `extra` is appended. */
  ghost predicate Grown(gs: seq<Group>, last: Option<nat>, gs': seq<Group>, last': Option<nat>, extra: seq<Instr>) {
    Flat(gs') == Flat(gs) + extra && Keeps(gs, last, gs', last')
  }

  lemma {:induction false} GrownTwice(
    gs: seq<Group>, last: Option<nat>, gs1: seq<Group>, last1: Option<nat>, gs2: seq<Group>, last2: Option<nat>,
    a: seq<Instr>, b: seq<Instr>)
    requires Grown(gs, last, gs1, last1, a) && Grown(gs1, last1, gs2, last2, b)
    ensures Grown(gs, last, gs2, last2, a + b)
  {
    assert Flat(gs) + a + b == Flat(gs) + (a + b);
  }

  /** A slot survives what is compiled after it. */
  lemma {:induction false} SlotGrown(
    gs: seq<Group>, last: Option<nat>, gs': seq<Group>, last': Option<nat>, extra: seq<Instr>, slot: nat, j: nat)
    requires SlotFor(gs, last, slot, j) && Grown(gs, last, gs', last', extra)
    ensures SlotFor(gs', last', slot, j)
  {
    SlotKept(gs, last, gs', last', slot, j);
  }

  lemma {:induction false} PatchedGrown(
    gs: seq<Group>, last: Option<nat>, gs1: seq<Group>, last1: Option<nat>, gs2: seq<Group>, last2: Option<nat>,
    a: seq<Instr>, b: seq<Instr>, i: Instr, t: nat)
    requires Grown(gs, last, gs1, last1, a + [i] + b) && Keeps(gs1, last1, gs2, last2)
    requires Flat(gs2) == Flat(gs1)[|Flat(gs)| + |a| := Patched(i, t)]
    ensures Grown(gs, last, gs2, last2, a + [Patched(i, t)] + b)
  {
    assert Flat(gs2) == Flat(gs) + (a + [Patched(i, t)] + b);
  }

  /** The branch at `j` goes to the end. */
  function PatchedAtEnd(P: seq<Instr>, j: nat): (r: seq<Instr>)
    requires j < |P|
    ensures |r| == |P|
  {
    P[j := Patched(P[j], |P|)]
  }

  /** The branch at `j` goes behind another one, whose target is open. */
  function Opened(P: seq<Instr>, j: nat): (r: seq<Instr>)
    requires j < |P|
    ensures |r| == |P| + 1 && r[|P|] == IBranch(None)
  {
    P[j := Patched(P[j], |P| + 1)] + [IBranch(None)]
  }

  lemma {:induction false} PatchedPush(P: seq<Instr>, i: Instr, j: nat)
    requires j < |P|
    ensures PatchedAtEnd(P + [i], j) == P[j := Patched(P[j], |P| + 1)] + [i]
  {
  }

  // ----- the compiler -----

  class Compiler {
    ghost const ms: Meanings
    ghost const rows: seq<Row>
    const hash: (Inst, Inst) -> nat
    const useSuper: bool
    const table: Buckets

    /** Cells up to `vmcodep`, and `last_compiled` as an index. */
    var code: seq<Cell>
    var lastCompiled: Option<nat>
    ghost var gs: seq<Group>

    ghost predicate Valid() reads this {
      && RowsOk(ms, rows) && TableFor(table, hash, rows)
      && BufferOk(ms, gs, lastCompiled, code)
    }

    constructor (ghost ms: Meanings, rows: seq<Row>, hash: (Inst, Inst) -> nat, useSuper: bool)
      requires RowsOk(ms, rows)
      ensures Valid() && gs == [] && code == [] && lastCompiled == None
      ensures this.ms == ms && this.rows == rows && this.useSuper == useSuper
    {
      var t := PrepareTable(rows, hash);
      this.ms, this.rows, this.hash, this.useSuper, this.table := ms, rows, hash, useSuper, t;
      code, lastCompiled, gs := [], None, [];
    }

    /** `gen_inst` */
    method GenInst(n: Inst, ghost combo: Option<Inst>)
      requires TableFor(table, hash, rows)
      requires lastCompiled.Some? ==> lastCompiled.value < |code| && code[lastCompiled.value].InstCell?
      requires combo == Combo(rows, useSuper, code, lastCompiled, n)
      modifies this`code, this`lastCompiled
      ensures code == WithInst(old(code), old(lastCompiled), combo, n)
      ensures lastCompiled == if combo.Some? then old(lastCompiled) else Some(|old(code)|)
    {
      if lastCompiled.Some? {
        var c := PeepholeOpt(table, hash, useSuper, code[lastCompiled.value].n, n, rows);
        if c.Some? {
          code := code[lastCompiled.value := InstCell(c.value)];
          return;
        }
      }
      lastCompiled := Some(|code|);
      code := code + [InstCell(n)];
    }

    /** `gen_add`, `gen_lit` and so on: a primitive and its argument. */
    method Gen(k: Kind, arg: int, ghost i: Instr)
      requires Valid() && KindOf(i) == k && (k.HasArg() ==> arg == ArgOf(gs, i))
      requires i.Control() && i.target.Some? ==> Stable(gs, lastCompiled, i.target.value)
      modifies this
      ensures Valid() && Grown(old(gs), old(lastCompiled), gs, lastCompiled, [i])
      ensures i.Control() ==> !Foldable(gs, lastCompiled)
    {
      ghost var combo := Combo(rows, useSuper, code, lastCompiled, PrimNumber(k));
      ghost var gs' := Emit(ms, rows, useSuper, gs, lastCompiled, code, combo, PrimNumber(k), i);
      ArgsOne(gs, i);
      GenInst(PrimNumber(k), combo);
      if k.HasArg() { code := code + [ArgCell(arg)]; }
      gs := gs';
    }

    /** `BB_BOUNDARY`: the last instruction stays as it is. */
    method BbBoundary()
      requires Valid()
      modifies this`lastCompiled
      ensures Valid() && lastCompiled == None && Grown(old(gs), old(lastCompiled), gs, lastCompiled, [])
    {
      Settled(ms, gs, lastCompiled, code);
      lastCompiled := None;
    }

    /** `slot[-1] = vmcodep` */
    method Patch(slot: nat, ghost j: nat)
      requires Valid() && SlotFor(gs, lastCompiled, slot, j) && !Foldable(gs, lastCompiled)
      modifies this`code, this`gs
      ensures Valid() && !Foldable(gs, lastCompiled) && Keeps(old(gs), old(lastCompiled), gs, lastCompiled)
      ensures Flat(gs) == PatchedAtEnd(old(Flat(gs)), j)
    {
      gs := PatchBuffer(ms, gs, lastCompiled, code, slot, j);
      code := code[slot - 1 := ArgCell(|code|)];
    }

    /** A branch to a place not known yet, and its slot. */
    method GenForward(k: Kind, ghost i: Instr) returns (slot: nat)
      requires Valid() && KindOf(i) == k && i.Control() && i.target == None
      modifies this
      ensures Valid() && Grown(old(gs), old(lastCompiled), gs, lastCompiled, [i])
      ensures !Foldable(gs, lastCompiled) && SlotFor(gs, lastCompiled, slot, |old(Flat(gs))|)
    {
      Gen(k, 0, i);
      slot := |code|;
      EncodeSize(gs, gs);
    }

    method CompileExpr(f: Frame, e: Expr) returns (ok: bool)
      requires Valid()
      modifies this
      ensures Valid() && ok == KnownExpr(f, e)
      ensures ok ==> Grown(old(gs), old(lastCompiled), gs, lastCompiled, FlatMachine.CompileExpr(f, e))
      decreases e
    {
      ghost var gs0, last0 := gs, lastCompiled;
      match e
      case Num(i) =>
        Gen(KLit, i, ILit(i));
        return true;
      case Var(x) =>
        if LookupVar(f.vtab, x).None? { return false; }
        Gen(KLoad, VarOffset(f, x), ILoad(VarOffset(f, x)));
        return true;
      case Binary(op, l, r) =>
        ok := CompileExpr(f, l);
        if !ok { return; }
        ghost var gs1, last1 := gs, lastCompiled;
        ok := CompileExpr(f, r);
        if !ok { return; }
        ghost var gs2, last2 := gs, lastCompiled;
        Gen(KBin(op), 0, IBin(op));
        GrownThrice(gs0, last0, gs1, last1, gs2, last2, gs, lastCompiled, FlatMachine.CompileExpr(f, l),
          FlatMachine.CompileExpr(f, r), [IBin(op)]);
      case Unary(op, e1) =>
        ok := CompileExpr(f, e1);
        if !ok { return; }
        ghost var gs1, last1 := gs, lastCompiled;
        Gen(KUn(op), 0, IUn(op));
        GrownTwice(gs0, last0, gs1, last1, gs, lastCompiled, FlatMachine.CompileExpr(f, e1), [IUn(op)]);
    }

    method CompileStmts(f: Frame, ss: Stmts) returns (ok: bool)
      requires Valid()
      modifies this
      ensures Valid() && ok == KnownStmts(f, ss)
      ensures ok ==>
              Grown(old(gs), old(lastCompiled), gs, lastCompiled, FlatMachine.CompileStmts(f, ss, |old(Flat(gs))|))
      decreases ss, 0
    {
      match ss
      case Nil => ok := true;
      case Cons(s, rest) =>
        ghost var gs0, last0 := gs, lastCompiled;
        ok := CompileStmt(f, s);
        if !ok { return; }
        ghost var gs1, last1 := gs, lastCompiled;
        ok := CompileStmts(f, rest);
        if !ok { return; }
        ghost var c := FlatMachine.CompileStmt(f, s, |Flat(gs0)|);
        GrownTwice(gs0, last0, gs1, last1, gs, lastCompiled, c, FlatMachine.CompileStmts(f, rest, |Flat(gs0)| + |c|));
    }

    method CompileStmt(f: Frame, s: Stmt) returns (ok: bool)
      requires Valid()
      modifies this
      ensures Valid() && ok == KnownStmt(f, s)
      ensures ok ==> Grown(old(gs), old(lastCompiled), gs, lastCompiled, FlatMachine.CompileStmt(f, s, |old(Flat(gs))|))
      decreases s, 1
    {
      match s
      case Assign(x, e) =>
        ok := CompileExpr(f, e);
        if !ok { return; }
        if LookupVar(f.vtab, x).None? { return false; }
        ghost var gs1, last1 := gs, lastCompiled;
        Gen(KStore, VarOffset(f, x), IStore(VarOffset(f, x)));
        GrownTwice(old(gs), old(lastCompiled), gs1, last1, gs, lastCompiled, FlatMachine.CompileExpr(f, e),
          [IStore(VarOffset(f, x))]);
      case Print(e) =>
        ok := CompileExpr(f, e);
        if !ok { return; }
        ghost var gs1, last1 := gs, lastCompiled;
        Gen(KPrint, 0, IPrint);
        GrownTwice(old(gs), old(lastCompiled), gs1, last1, gs, lastCompiled, FlatMachine.CompileExpr(f, e), [IPrint]);
      case Drop(e) =>
        ok := CompileExpr(f, e);
        if !ok { return; }
        ghost var gs1, last1 := gs, lastCompiled;
        Gen(KDrop, 0, IDrop);
        GrownTwice(old(gs), old(lastCompiled), gs1, last1, gs, lastCompiled, FlatMachine.CompileExpr(f, e), [IDrop]);
      case If(e, thn, els) => ok := CompileIf(f, s);
      case While(e, body) => ok := CompileWhile(f, s);
    }

    /** The start of `if` and `while`: a test, and statements that it may skip. */
    method CompileTest(f: Frame, e: Expr, body: Stmts) returns (ok: bool, slot: nat)
      requires Valid()
      modifies this
      ensures Valid() && ok == (KnownExpr(f, e) && KnownStmts(f, body))
      ensures ok ==> ThenGrown(old(gs), old(lastCompiled), gs, lastCompiled, f, e, body)
      ensures ok ==> SlotFor(gs, lastCompiled, slot, |old(Flat(gs))| + |FlatMachine.CompileExpr(f, e)|)
      decreases body, 1
    {
      slot := 0;
      ok := CompileExpr(f, e);
      if !ok { return; }
      ghost var gs1, last1 := gs, lastCompiled;
      slot := GenForward(KZBranch, IZBranch(None));
      ghost var gs2, last2 := gs, lastCompiled;
      ok := CompileStmts(f, body);
      if !ok { return; }
      SlotGrown(gs2, last2, gs, lastCompiled, FlatMachine.CompileStmts(f, body, |Flat(gs2)|), slot, |Flat(gs1)|);
      TestGrown(old(gs), old(lastCompiled), gs1, last1, gs2, last2, gs, lastCompiled, f, e, body);
    }

    method CompileIf(f: Frame, s: Stmt) returns (ok: bool)
      requires Valid() && s.If?
      modifies this
      ensures Valid() && ok == KnownStmt(f, s)
      ensures ok ==> Grown(old(gs), old(lastCompiled), gs, lastCompiled, FlatMachine.CompileStmt(f, s, |old(Flat(gs))|))
      decreases s, 0
    {
      ghost var at, c := |Flat(gs)|, FlatMachine.CompileExpr(f, s.e);
      var slot;
      ok, slot := CompileTest(f, s.e, s.thn);
      if !ok { return; }
      ghost var gs1, last1 := gs, lastCompiled;
      if s.els.NoElse? {
        CompileEndIf(slot, at + |c|);
        IfGrown(old(gs), old(lastCompiled), gs1, last1, gs, lastCompiled, f, s);
      } else {
        ok := CompileElse(f, s.els.ss, slot, at + |c|);
        if !ok { return; }
        IfElseGrown(old(gs), old(lastCompiled), gs1, last1, gs, lastCompiled, f, s);
      }
    }

    /** `END IF` */
    method CompileEndIf(slot: nat, ghost j: nat)
      requires Valid() && SlotFor(gs, lastCompiled, slot, j)
      modifies this
      ensures Valid() && Keeps(old(gs), old(lastCompiled), gs, lastCompiled)
      ensures Flat(gs) == PatchedAtEnd(old(Flat(gs)), j)
    {
      ghost var gs0, last0 := gs, lastCompiled;
      BbBoundary();
      SlotGrown(gs0, last0, gs, lastCompiled, [], slot, j);
      Patch(slot, j);
    }

    /** `ELSE stats END IF`, where `slot` is that of the test. */
    method CompileElse(f: Frame, ss: Stmts, slot: nat, ghost j: nat) returns (ok: bool)
      requires Valid() && SlotFor(gs, lastCompiled, slot, j)
      modifies this
      ensures Valid() && ok == KnownStmts(f, ss)
      ensures ok ==> Keeps(old(gs), old(lastCompiled), gs, lastCompiled)
      ensures ok ==> Flat(gs) == WithElse(f, ss, old(Flat(gs)), j)
      decreases ss, 1
    {
      ghost var P := Flat(gs);
      var slot2 := CompileOver(slot, j);
      ghost var gs2, last2 := gs, lastCompiled;
      ok := CompileStmts(f, ss);
      if !ok { return; }
      ghost var P3 := Flat(gs);
      SlotGrown(gs2, last2, gs, lastCompiled, FlatMachine.CompileStmts(f, ss, |P| + 1), slot2, |P|);
      CompileEndIf(slot2, |P|);
      ElseDone(P, P3, Flat(gs), f, ss, j);
    }

    /** `ELSE` */
    method CompileOver(slot: nat, ghost j: nat) returns (slot2: nat)
      requires Valid() && SlotFor(gs, lastCompiled, slot, j)
      modifies this
      ensures Valid() && Keeps(old(gs), old(lastCompiled), gs, lastCompiled)
              && SlotFor(gs, lastCompiled, slot2, |old(Flat(gs))|)
      ensures Flat(gs) == Opened(old(Flat(gs)), j)
    {
      ghost var gs0, last0 := gs, lastCompiled;
      slot2 := GenForward(KBranch, IBranch(None));
      SlotGrown(gs0, last0, gs, lastCompiled, [IBranch(None)], slot, j);
      PatchedPush(Flat(gs0), IBranch(None), j);
      ghost var gs1, last1 := gs, lastCompiled;
      Patch(slot, j);
      SlotKept(gs1, last1, gs, lastCompiled, slot2, |Flat(gs0)|);
    }

    method CompileWhile(f: Frame, s: Stmt) returns (ok: bool)
      requires Valid() && s.While?
      modifies this
      ensures Valid() && ok == KnownStmt(f, s)
      ensures ok ==> Grown(old(gs), old(lastCompiled), gs, lastCompiled, FlatMachine.CompileStmt(f, s, |old(Flat(gs))|))
      decreases s, 0
    {
      ghost var gs0, last0 := gs, lastCompiled;
      var start := CompileStart();
      ghost var gs1, last1 := gs, lastCompiled;
      var slot;
      ok, slot := CompileTest(f, s.e, s.body);
      if !ok { return; }
      ghost var gs2, last2 := gs, lastCompiled;
      ghost var c := FlatMachine.CompileExpr(f, s.e);
      CompileEndLoop(start, slot, |Flat(gs0)|, |Flat(gs0)| + |c|);
      WhileGrown(gs0, last0, gs1, last1, gs2, last2, gs, lastCompiled, f, s);
    }

    /** `WHILE` */
    method CompileStart() returns (start: nat)
      requires Valid()
      modifies this
      ensures Valid() && Grown(old(gs), old(lastCompiled), gs, lastCompiled, [])
      ensures Stable(gs, lastCompiled, |Flat(gs)|) && start == AddrOf(gs, |Flat(gs)|)
    {
      BbBoundary();
      start := |code|;
      EncodeSize(gs, gs);
    }

    /** `END WHILE` */
    method CompileEndLoop(start: nat, slot: nat, ghost at: nat, ghost j: nat)
      requires Valid() && Stable(gs, lastCompiled, at) && start == AddrOf(gs, at) && SlotFor(gs, lastCompiled, slot, j)
      modifies this
      ensures Valid() && Keeps(old(gs), old(lastCompiled), gs, lastCompiled)
      ensures Flat(gs) == WithLoop(old(Flat(gs)), at, j)
    {
      ghost var gs0, last0 := gs, lastCompiled;
      Gen(KBranch, start, IBranch(Some(at)));
      SlotGrown(gs0, last0, gs, lastCompiled, [IBranch(Some(at))], slot, j);
      PatchedPush(Flat(gs0), IBranch(Some(at)), j);
      Patch(slot, j);
    }

    /** The body of a function, which starts the program or follows a control
        transfer (`insert_func` and the statements). */
    method CompileBody(f: Frame, ss: Stmts) returns (ok: bool, start: nat)
      requires Valid() && TargetsKnown(Flat(gs)) && !Foldable(gs, lastCompiled)
      modifies this
      ensures Valid() && ok == KnownStmts(f, ss)
      ensures ok ==> start == |old(code)| && Implements(ms, code, start, |code|, f, ss)
      ensures ok ==> Decode(ms, code, 0) == Some(RelocatedAll(gs, Flat(gs)))
      ensures ok ==>
              TargetsKnown(Flat(gs)) && Flat(gs) == old(Flat(gs)) + FlatMachine.CompileStmts(f, ss, |old(Flat(gs))|)
    {
      start := |code|;
      EncodeSize(gs, gs);
      ok := CompileStmts(f, ss);
      if !ok { return; }
      BodyComplete(ms, old(gs), old(lastCompiled), gs, lastCompiled, code, f, ss);
      BodyImplements(ms, old(gs), old(lastCompiled), gs, lastCompiled, code, f, ss);
    }
  }

  // ----- the code means what the statements mean -----

  lemma {:induction false} KnownAppend(a: seq<Instr>, b: seq<Instr>)
    requires TargetsKnown(a) && TargetsKnown(b)
    ensures TargetsKnown(a + b)
  {
  }

  lemma {:induction false} ExprTargets(f: Frame, e: Expr)
    ensures TargetsKnown(FlatMachine.CompileExpr(f, e))
  {
    match e
    case Num(_) =>
    case Var(_) =>
    case Binary(op, l, r) =>
      ExprTargets(f, l);
      ExprTargets(f, r);
      KnownAppend(FlatMachine.CompileExpr(f, l), FlatMachine.CompileExpr(f, r));
      KnownAppend(FlatMachine.CompileExpr(f, l) + FlatMachine.CompileExpr(f, r), [IBin(op)]);
    case Unary(op, e1) =>
      ExprTargets(f, e1);
      KnownAppend(FlatMachine.CompileExpr(f, e1), [IUn(op)]);
  }

  /** No slot stays unpatched. */
  lemma {:induction false} StmtsTargets(f: Frame, ss: Stmts, at: nat)
    ensures TargetsKnown(FlatMachine.CompileStmts(f, ss, at))
    decreases ss
  {
    match ss
    case Nil =>
    case Cons(s, rest) =>
      var c := FlatMachine.CompileStmt(f, s, at);
      StmtTargets(f, s, at);
      StmtsTargets(f, rest, at + |c|);
      KnownAppend(c, FlatMachine.CompileStmts(f, rest, at + |c|));
  }

  lemma {:induction false} StmtTargets(f: Frame, s: Stmt, at: nat)
    ensures TargetsKnown(FlatMachine.CompileStmt(f, s, at))
    decreases s
  {
    var c := FlatMachine.CompileExpr(f, s.e);
    ExprTargets(f, s.e);
    if s.If? {
      StmtsTargets(f, s.thn, at + |c| + 1);
      var t := FlatMachine.CompileStmts(f, s.thn, at + |c| + 1);
      if s.els.Else? { StmtsTargets(f, s.els.ss, at + |c| + 1 + |t| + 1); }
    } else if s.While? {
      StmtsTargets(f, s.body, at + |c| + 1);
    }
  }

  /** Whenever the statements terminate, the machine gets from one address to
      the other with the same stack, and with the locals and the output that
      the statements produce. */
  ghost predicate Implements(ms: Meanings, code: seq<Cell>, from: nat, to: nat, f: Frame, ss: Stmts) {
    forall alu: Alu, o: Outcome, fuel: nat, d: Data ::
      FrameOk(f) && OwnStmts(f, ss) && FlatMachine.Matches(f, o, d) && Exec(alu, ss, o, fuel).Some? ==>
        Ends(alu, ms, code, from, to, f, Exec(alu, ss, o, fuel).value, d)
  }

  ghost predicate Ends(alu: Alu, ms: Meanings, code: seq<Cell>, from: nat, to: nat, f: Frame, o': Outcome, d: Data) {
    exists d': Data ::
      MReaches(alu, ms, code, State(from, d), State(to, d')) && d'.stack == d.stack && FlatMachine.Matches(f, o', d')
  }

  lemma {:induction false} BodyComplete(
    ms: Meanings, gs: seq<Group>, last: Option<nat>, gs': seq<Group>, last': Option<nat>, code: seq<Cell>,
    f: Frame, ss: Stmts)
    requires BufferOk(ms, gs', last', code) && TargetsKnown(Flat(gs))
    requires Grown(gs, last, gs', last', FlatMachine.CompileStmts(f, ss, |Flat(gs)|))
    ensures TargetsKnown(Flat(gs')) && Complete(ms, gs') && Decode(ms, code, 0) == Some(RelocatedAll(gs', Flat(gs')))
  {
    assert gs'[..0] == [];
    StmtsTargets(f, ss, |Flat(gs)|);
    KnownAppend(Flat(gs), FlatMachine.CompileStmts(f, ss, |Flat(gs)|));
    DecodeEncode(ms, gs', 0);
  }

  lemma {:induction false} BodyImplements(
    ms: Meanings, gs: seq<Group>, last: Option<nat>, gs': seq<Group>, last': Option<nat>, code: seq<Cell>,
    f: Frame, ss: Stmts)
    requires code == Encode(gs', gs') && Complete(ms, gs') && !Foldable(gs, last)
    requires Grown(gs, last, gs', last', FlatMachine.CompileStmts(f, ss, |Flat(gs)|))
    ensures Implements(ms, code, Size(gs), |code|, f, ss)
  {
    forall alu: Alu, o: Outcome, fuel: nat, d: Data
      | FrameOk(f) && OwnStmts(f, ss) && FlatMachine.Matches(f, o, d) && Exec(alu, ss, o, fuel).Some?
      ensures Ends(alu, ms, code, Size(gs), |code|, f, Exec(alu, ss, o, fuel).value, d)
    {
      BodyRun(alu, ms, gs, last, gs', last', f, ss, o, fuel, d);
    }
  }

  lemma {:induction false} BodyRun(
    alu: Alu, ms: Meanings, gs: seq<Group>, last: Option<nat>, gs': seq<Group>, last': Option<nat>, f: Frame,
    ss: Stmts, o: Outcome, fuel: nat, d: Data)
    requires Complete(ms, gs') && !Foldable(gs, last)
    requires Grown(gs, last, gs', last', FlatMachine.CompileStmts(f, ss, |Flat(gs)|))
    requires FrameOk(f) && OwnStmts(f, ss) && FlatMachine.Matches(f, o, d) && Exec(alu, ss, o, fuel).Some?
    ensures Ends(alu, ms, Encode(gs', gs'), Size(gs), |Encode(gs', gs')|, f, Exec(alu, ss, o, fuel).value, d)
  {
    var at, end := |Flat(gs)|, |Flat(gs')|;
    assert Stable(gs, last, at);
    var d' := StmtsCorrect(alu, Flat(gs'), f, ss, at, o, fuel, d);
    var k: nat :| Run(alu, Flat(gs'), k, State(at, d)) == Some(State(end, d'));
    Simulation(alu, ms, gs', k, State(at, d), State(end, d'));
    EncodeSize(gs', gs');
    assert AddrOf(gs', at) == Size(gs) && AddrOf(gs', end) == Size(gs');
  }

  /** The combination that takes the place of the last instruction. */
  ghost function Combo(rows: seq<Row>, useSuper: bool, code: seq<Cell>, last: Option<nat>, n: Inst): Option<Inst> {
    if useSuper && last.Some? && last.value < |code| && code[last.value].InstCell?
    then LastMatch(rows, code[last.value].n, n) else None
  }

  function WithInst(code: seq<Cell>, last: Option<nat>, combo: Option<Inst>, n: Inst): seq<Cell> {
    if combo.Some? && last.Some? && last.value < |code| then code[last.value := InstCell(combo.value)]
      else code + [InstCell(n)]
  }

  /** A primitive at the end of the buffer, folded into the last instruction or not. */
  lemma {:induction false} Emit(
    ms: Meanings, rows: seq<Row>, useSuper: bool, gs: seq<Group>, last: Option<nat>, code: seq<Cell>,
    combo: Option<Inst>, n: Inst, i: Instr)
    returns (gs': seq<Group>)
    requires RowsOk(ms, rows) && BufferOk(ms, gs, last, code) && n == PrimNumber(KindOf(i))
             && combo == Combo(rows, useSuper, code, last, n)
    requires i.Control() && i.target.Some? ==> Stable(gs, last, i.target.value)
    ensures last.Some? ==> last.value < |code| && code[last.value].InstCell?
    ensures var last' := if combo.Some? then last else Some(|code|);
            && BufferOk(ms, gs', last', WithInst(code, last, combo, n) + Args(gs, [i]))
            && Grown(gs, last, gs', last', [i]) && (i.Control() ==> !Foldable(gs', last'))
  {
    LastCell(ms, gs, last, code);
    if combo.Some? {
      Folded(ms, rows, gs, last, code, n, combo.value, i);
      gs' := FoldedGroups(gs, combo.value, i);
    } else {
      NewInstruction(ms, gs, last, code, n, i);
      gs' := gs + [Group(n, [i])];
    }
  }

  function FoldedGroups(gs: seq<Group>, combo: Inst, i: Instr): seq<Group>
    requires gs != []
  {
    gs[..|gs| - 1] + [Group(combo, gs[|gs| - 1].items + [i])]
  }

  lemma {:induction false} LastCell(ms: Meanings, gs: seq<Group>, last: Option<nat>, code: seq<Cell>)
    requires BufferOk(ms, gs, last, code)
    ensures last.Some? ==> gs != [] && last.value < |code| && code[last.value] == InstCell(gs[|gs| - 1].inst)
  {
    if last.Some? { EncodeAt(gs, gs, |gs| - 1); }
  }

  lemma {:induction false} Folded(
    ms: Meanings, rows: seq<Row>, gs: seq<Group>, last: Option<nat>, code: seq<Cell>, n: Inst, combo: Inst,
    i: Instr)
    requires RowsOk(ms, rows) && BufferOk(ms, gs, last, code) && last.Some? && n == PrimNumber(KindOf(i))
    requires last.value < |code| && code[last.value].InstCell? && LastMatch(rows, code[last.value].n, n) == Some(combo)
    requires i.Control() && i.target.Some? ==> Stable(gs, last, i.target.value)
    ensures gs != []
    ensures var gs' := FoldedGroups(gs, combo, i);
            && BufferOk(ms, gs', last, code[last.value := InstCell(combo)] + Args(gs, [i]))
            && Grown(gs, last, gs', last, [i]) && (i.Control() ==> !Foldable(gs', last))
  {
    LastCell(ms, gs, last, code);
    var k :| 0 <= k < |rows| && Combines(rows[k], code[last.value].n, n) && rows[k].combo == combo;
    var r := rows[k];
    assert r in rows;
    var pre, g := gs[..|gs| - 1], gs[|gs| - 1];
    assert pre + [g] == gs;
    FoldInstruction(ms, pre, g, last, code, combo, i);
  }

  lemma {:induction false} Settled(ms: Meanings, gs: seq<Group>, last: Option<nat>, code: seq<Cell>)
    requires BufferOk(ms, gs, last, code)
    ensures BufferOk(ms, gs, None, code) && Grown(gs, last, gs, None, [])
  {
  }

  lemma {:induction false} GrownThrice(
    gs: seq<Group>, last: Option<nat>, gs1: seq<Group>, last1: Option<nat>, gs2: seq<Group>, last2: Option<nat>,
    gs3: seq<Group>, last3: Option<nat>, a: seq<Instr>, b: seq<Instr>, c: seq<Instr>)
    requires Grown(gs, last, gs1, last1, a) && Grown(gs1, last1, gs2, last2, b) && Grown(gs2, last2, gs3, last3, c)
    ensures Grown(gs, last, gs3, last3, a + b + c)
  {
    GrownTwice(gs, last, gs1, last1, gs2, last2, a, b);
    GrownTwice(gs, last, gs2, last2, gs3, last3, a + b, c);
  }

  /** What `ELSE` makes of the primitives so far: the branch over it, the test
      in number `j` patched to go behind that, and the statements. */
  function WithElse(f: Frame, ss: Stmts, P: seq<Instr>, j: nat): seq<Instr>
    requires j < |P|
  {
    var n := |P|;
    var u := FlatMachine.CompileStmts(f, ss, n + 1);
    P[j := Patched(P[j], n + 1)] + [IBranch(Some(n + 1 + |u|))] + u
  }

  lemma {:induction false} ElseDone(P: seq<Instr>, P3: seq<Instr>, P4: seq<Instr>, f: Frame, ss: Stmts, j: nat)
    requires j < |P| && P3 == Opened(P, j) + FlatMachine.CompileStmts(f, ss, |P| + 1)
    requires P4 == PatchedAtEnd(P3, |P|)
    ensures P4 == WithElse(f, ss, P, j)
  {
  }

  /** After the test and the first branch of an `if`. */
  ghost predicate ThenGrown(
    gs: seq<Group>, last: Option<nat>, gs1: seq<Group>, last1: Option<nat>, f: Frame, e: Expr, thn: Stmts) {
    var c, at := FlatMachine.CompileExpr(f, e), |Flat(gs)|;
    Grown(gs, last, gs1, last1, c + [IZBranch(None)] + FlatMachine.CompileStmts(f, thn, at + |c| + 1))
  }

  lemma {:induction false} TestGrown(
    gs: seq<Group>, last: Option<nat>, gs1: seq<Group>, last1: Option<nat>, gs2: seq<Group>, last2: Option<nat>,
    gs3: seq<Group>, last3: Option<nat>, f: Frame, e: Expr, body: Stmts)
    requires Grown(gs, last, gs1, last1, FlatMachine.CompileExpr(f, e))
             && Grown(gs1, last1, gs2, last2, [IZBranch(None)])
    requires Grown(gs2, last2, gs3, last3, FlatMachine.CompileStmts(f, body, |Flat(gs2)|))
    ensures ThenGrown(gs, last, gs3, last3, f, e, body)
    ensures |Flat(gs1)| == |Flat(gs)| + |FlatMachine.CompileExpr(f, e)|
  {
    GrownThrice(gs, last, gs1, last1, gs2, last2, gs3, last3, FlatMachine.CompileExpr(f, e), [IZBranch(None)],
      FlatMachine.CompileStmts(f, body, |Flat(gs2)|));
  }

  lemma {:induction false} IfGrown(
    gs: seq<Group>, last: Option<nat>, gs1: seq<Group>, last1: Option<nat>, gs2: seq<Group>, last2: Option<nat>,
    f: Frame, s: Stmt)
    requires s.If? && s.els.NoElse? && ThenGrown(gs, last, gs1, last1, f, s.e, s.thn) && Keeps(gs1, last1, gs2, last2)
    requires var j := |Flat(gs)| + |FlatMachine.CompileExpr(f, s.e)|;
             Flat(gs2) == Flat(gs1)[j := Patched(Flat(gs1)[j], |Flat(gs1)|)]
    ensures Grown(gs, last, gs2, last2, FlatMachine.CompileStmt(f, s, |Flat(gs)|))
  {
    var c, at := FlatMachine.CompileExpr(f, s.e), |Flat(gs)|;
    var t := FlatMachine.CompileStmts(f, s.thn, at + |c| + 1);
    PatchedGrown(gs, last, gs1, last1, gs2, last2, c, t, IZBranch(None), |Flat(gs1)|);
  }

  lemma {:induction false} IfElseGrown(
    gs: seq<Group>, last: Option<nat>, gs1: seq<Group>, last1: Option<nat>, gs2: seq<Group>, last2: Option<nat>,
    f: Frame, s: Stmt)
    requires s.If? && s.els.Else? && ThenGrown(gs, last, gs1, last1, f, s.e, s.thn) && Keeps(gs1, last1, gs2, last2)
    requires Flat(gs2) == WithElse(f, s.els.ss, Flat(gs1), |Flat(gs)| + |FlatMachine.CompileExpr(f, s.e)|)
    ensures Grown(gs, last, gs2, last2, FlatMachine.CompileStmt(f, s, |Flat(gs)|))
  {
    var c, at := FlatMachine.CompileExpr(f, s.e), |Flat(gs)|;
    var t := FlatMachine.CompileStmts(f, s.thn, at + |c| + 1);
    var l := at + |c| + 1 + |t| + 1;
    var u := FlatMachine.CompileStmts(f, s.els.ss, l);
    var j := IBranch(Some(l + |u|));
    IfElseShape(f, s, at, l, t, u, j);
    ElseShape(Flat(gs), c, t, u, l, j);
  }

  lemma {:induction false} ElseShape(P: seq<Instr>, c: seq<Instr>, t: seq<Instr>, u: seq<Instr>, l: nat, j: Instr)
    ensures (P + (c + [IZBranch(None)] + t))[|P| + |c| := IZBranch(Some(l))] + [j] + u
            == P + (c + [IZBranch(Some(l))] + (t + [j] + u))
  {
  }

  /** What `END WHILE` makes of the primitives so far. */
  function WithLoop(P: seq<Instr>, at: nat, j: nat): seq<Instr>
    requires j < |P|
  {
    P[j := Patched(P[j], |P| + 1)] + [IBranch(Some(at))]
  }

  lemma {:induction false} WhileGrown(
    gs: seq<Group>, last: Option<nat>, gs1: seq<Group>, last1: Option<nat>, gs2: seq<Group>, last2: Option<nat>,
    gs3: seq<Group>, last3: Option<nat>, f: Frame, s: Stmt)
    requires s.While? && Grown(gs, last, gs1, last1, [])
    requires ThenGrown(gs1, last1, gs2, last2, f, s.e, s.body)
    requires Flat(gs3) == WithLoop(Flat(gs2), |Flat(gs)|, |Flat(gs)| + |FlatMachine.CompileExpr(f, s.e)|)
    requires Keeps(gs2, last2, gs3, last3)
    ensures Grown(gs, last, gs3, last3, FlatMachine.CompileStmt(f, s, |Flat(gs)|))
  {
    var c, at := FlatMachine.CompileExpr(f, s.e), |Flat(gs)|;
    var t := FlatMachine.CompileStmts(f, s.body, at + |c| + 1);
    LoopShape(Flat(gs), c, t, at);
  }

  lemma {:induction false} LoopShape(P: seq<Instr>, c: seq<Instr>, t: seq<Instr>, at: nat)
    ensures WithLoop(P + [] + (c + [IZBranch(None)] + t), at, |P| + |c|) ==
            P + (c + [IZBranch(Some(|P| + |c| + 1 + |t| + 1))] + t + [IBranch(Some(at))])
  {
  }
}
