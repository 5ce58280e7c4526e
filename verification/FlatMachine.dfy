/** Programs as sequences of primitives with numbered targets, and the
    translation of mini statements to them. */
module FlatMachine {
  import opened Basics
  import opened MiniLanguage

  /** A primitive with its argument.  The target of a branch is the number of
      another primitive, or missing until it is known. */
  datatype Instr =
    | ILit(i: int)
    | ILoad(offset: int)
    | IStore(offset: int)
    | IBin(op: BinOp)
    | IUn(uop: UnOp)
    | IPrint
    | IDrop
    | IZBranch(target: Option<nat>)
    | IBranch(target: Option<nat>)
  {
    predicate Control() { IZBranch? || IBranch? }
  }

  /** The data stack (top last), the frame by offset, and the output. */
  datatype Data = Data(stack: seq<int>, mem: map<int, int>, out: seq<int>)

  /** The effect of a primitive on the data; none if the stack is too small. */
  function Do(alu: Alu, i: Instr, d: Data): Option<Data> {
    var n := |d.stack|;
    match i
    case ILit(x) => Some(d.(stack := d.stack + [x]))
    case ILoad(o) => Some(d.(stack := d.stack + [if o in d.mem then d.mem[o] else 0]))
    case IStore(o) => if n < 1 then None else Some(d.(stack := d.stack[..n-1], mem := d.mem[o := d.stack[n-1]]))
    case IBin(op) => if n < 2 then None
      else Some(d.(stack := d.stack[..n-2] + [alu.bin(op, d.stack[n-2], d.stack[n-1])]))
    case IUn(op) => if n < 1 then None else Some(d.(stack := d.stack[..n-1] + [alu.un(op, d.stack[n-1])]))
    case IPrint => if n < 1 then None else Some(d.(stack := d.stack[..n-1], out := d.out + [d.stack[n-1]]))
    case IDrop => if n < 1 then None else Some(d.(stack := d.stack[..n-1]))
    case IZBranch(_) => if n < 1 then None else Some(d.(stack := d.stack[..n-1]))
    case IBranch(_) => Some(d)
  }

  /** Does `i` branch, executed on `d`? */
  predicate Taken(i: Instr, d: Data) {
    i.IBranch? || (i.IZBranch? && |d.stack| > 0 && d.stack[|d.stack|-1] == 0)
  }

  datatype State = State(pc: nat, d: Data)

  function Step(alu: Alu, P: seq<Instr>, s: State): Option<State> {
    if s.pc >= |P| then None
    else
      var i := P[s.pc];
      match Do(alu, i, s.d)
      case None => None
      case Some(d') =>
        if !Taken(i, s.d) then Some(State(s.pc + 1, d'))
        else if i.target.None? then None
        else Some(State(i.target.value, d'))
  }

  function Run(alu: Alu, P: seq<Instr>, k: nat, s: State): Option<State>
    decreases k
  {
    if k == 0 then Some(s)
    else
      match Step(alu, P, s)
      case None => None
      case Some(s') => Run(alu, P, k - 1, s')
  }

  ghost predicate Reaches(alu: Alu, P: seq<Instr>, s: State, s': State) {
    exists k: nat :: Run(alu, P, k, s) == Some(s')
  }

  lemma {:induction false} RunAdd(alu: Alu, P: seq<Instr>, j: nat, k: nat, s: State)
    requires Run(alu, P, j, s).Some?
    ensures Run(alu, P, j + k, s) == Run(alu, P, k, Run(alu, P, j, s).value)
    decreases j
  {
    if j > 0 {
      RunAdd(alu, P, j - 1, k, Step(alu, P, s).value);
    }
  }

  lemma {:induction false} ReachesTransitive(alu: Alu, P: seq<Instr>, s: State, t: State, u: State)
    requires Reaches(alu, P, s, t) && Reaches(alu, P, t, u)
    ensures Reaches(alu, P, s, u)
  {
    var j: nat :| Run(alu, P, j, s) == Some(t);
    var k: nat :| Run(alu, P, k, t) == Some(u);
    RunAdd(alu, P, j, k, s);
    assert Run(alu, P, j + k, s) == Some(u);
  }

  lemma {:induction false} ReachesStep(alu: Alu, P: seq<Instr>, s: State, t: State)
    requires Step(alu, P, s) == Some(t)
    ensures Reaches(alu, P, s, t)
  {
    assert Run(alu, P, 0, t) == Some(t);
    assert Run(alu, P, 1, s) == Some(t);
  }

  lemma {:induction false} ReachesSelf(alu: Alu, P: seq<Instr>, s: State)
    ensures Reaches(alu, P, s, s)
  {
    assert Run(alu, P, 0, s) == Some(s);
  }

  // ----- translation -----

  function CompileExpr(f: Frame, e: Expr): seq<Instr> {
    match e
    case Num(i) => [ILit(i)]
    case Var(x) => [ILoad(VarOffset(f, x))]
    case Binary(op, l, r) => CompileExpr(f, l) + CompileExpr(f, r) + [IBin(op)]
    case Unary(op, e) => CompileExpr(f, e) + [IUn(op)]
  }

  /** The primitives for statements whose first primitive has number `at`. */
  function CompileStmts(f: Frame, ss: Stmts, at: nat): seq<Instr> {
    match ss
    case Nil => []
    case Cons(s, rest) =>
      var c := CompileStmt(f, s, at);
      c + CompileStmts(f, rest, at + |c|)
  }

  function CompileStmt(f: Frame, s: Stmt, at: nat): seq<Instr> {
    match s
    case Assign(x, e) => CompileExpr(f, e) + [IStore(VarOffset(f, x))]
    case Print(e) => CompileExpr(f, e) + [IPrint]
    case Drop(e) => CompileExpr(f, e) + [IDrop]
    case If(e, thn, NoElse) =>
      var c := CompileExpr(f, e);
      var t := CompileStmts(f, thn, at + |c| + 1);
      c + [IZBranch(Some(at + |c| + 1 + |t|))] + t
    case If(e, thn, Else(ss)) =>
      var c := CompileExpr(f, e);
      var t := CompileStmts(f, thn, at + |c| + 1);
      var l := at + |c| + 1 + |t| + 1;
      var u := CompileStmts(f, ss, l);
      c + [IZBranch(Some(l))] + t + [IBranch(Some(l + |u|))] + u
    case While(e, body) =>
      var c := CompileExpr(f, e);
      var t := CompileStmts(f, body, at + |c| + 1);
      c + [IZBranch(Some(at + |c| + 1 + |t| + 1))] + t + [IBranch(Some(at))]
  }

  // ----- the translation preserves meaning -----

  /** `c` is the part of `P` from `at` on. */
  ghost predicate PartAt(P: seq<Instr>, at: nat, c: seq<Instr>) {
    at + |c| <= |P| && forall k {:trigger c[k]} | 0 <= k < |c| :: P[at + k] == c[k]
  }

  lemma {:induction false} PartSplit(P: seq<Instr>, at: nat, a: seq<Instr>, b: seq<Instr>)
    requires PartAt(P, at, a + b)
    ensures PartAt(P, at, a) && PartAt(P, at + |a|, b)
  {
    var c := a + b;
    assert forall k | 0 <= k < |a| :: c[k] == a[k];
    assert forall k | 0 <= k < |b| :: c[|a| + k] == b[k];
  }

  lemma {:induction false} PartOne(P: seq<Instr>, at: nat, i: Instr)
    requires PartAt(P, at, [i])
    ensures at < |P| && P[at] == i
  {
    assert [i][0] == i;
  }

  /** The frame holds the values of the variables. */
  ghost predicate Holds(f: Frame, env: Env, mem: map<int, int>) {
    forall x | Own(f, x) :: x in env && VarOffset(f, x) in mem && mem[VarOffset(f, x)] == env[x]
  }

  lemma {:induction false} HoldsStore(f: Frame, env: Env, mem: map<int, int>, x: string, v: int)
    requires FrameOk(f) && Own(f, x) && Holds(f, env, mem)
    ensures Holds(f, env[x := v], mem[VarOffset(f, x) := v])
  {
    forall y | Own(f, y)
      ensures y in env[x := v] && var m := mem[VarOffset(f, x) := v];
              VarOffset(f, y) in m && m[VarOffset(f, y)] == env[x := v][y]
    {
      OffsetsDistinct(f, x, y);
    }
  }

  lemma {:induction false} ExprCorrect(alu: Alu, P: seq<Instr>, f: Frame, e: Expr, at: nat, env: Env, d: Data)
    requires PartAt(P, at, CompileExpr(f, e)) && OwnExpr(f, e) && Holds(f, env, d.mem)
    ensures Reaches(alu, P, State(at, d), State(at + |CompileExpr(f, e)|, d.(stack := d.stack + [Eval(alu, e, env)])))
    decreases e, 1
  {
    match e
    case Num(i) =>
      PartOne(P, at, ILit(i));
      ReachesStep(alu, P, State(at, d), State(at + 1, d.(stack := d.stack + [i])));
    case Var(x) =>
      PartOne(P, at, ILoad(VarOffset(f, x)));
      ReachesStep(alu, P, State(at, d), State(at + 1, d.(stack := d.stack + [env[x]])));
    case Binary(op, l, r) =>
      BinaryCorrect(alu, P, f, op, l, r, at, env, d);
    case Unary(op, e0) =>
      var c := CompileExpr(f, e0);
      PartSplit(P, at, c, [IUn(op)]);
      ExprCorrect(alu, P, f, e0, at, env, d);
      PartOne(P, at + |c|, IUn(op));
      var v := Eval(alu, e0, env);
      var d1 := d.(stack := d.stack + [v]);
      UnaryStep(alu, P, at + |c|, op, d, v);
      ReachesTransitive(alu, P, State(at, d), State(at + |c|, d1),
        State(at + |c| + 1, d.(stack := d.stack + [alu.un(op, v)])));
  }

  lemma {:induction false} BinaryCorrect(
    alu: Alu, P: seq<Instr>, f: Frame, op: BinOp, l: Expr, r: Expr, at: nat, env: Env, d: Data)
    requires PartAt(P, at, CompileExpr(f, l) + CompileExpr(f, r) + [IBin(op)])
    requires OwnExpr(f, l) && OwnExpr(f, r) && Holds(f, env, d.mem)
    ensures var end := at + |CompileExpr(f, l)| + |CompileExpr(f, r)| + 1;
            var v := alu.bin(op, Eval(alu, l, env), Eval(alu, r, env));
            Reaches(alu, P, State(at, d), State(end, d.(stack := d.stack + [v])))
    decreases Binary(op, l, r), 0
  {
    var cl, cr := CompileExpr(f, l), CompileExpr(f, r);
    var x, y := Eval(alu, l, env), Eval(alu, r, env);
    PartSplit(P, at, cl + cr, [IBin(op)]);
    PartSplit(P, at, cl, cr);
    ExprCorrect(alu, P, f, l, at, env, d);
    var d1 := d.(stack := d.stack + [x]);
    ExprCorrect(alu, P, f, r, at + |cl|, env, d1);
    var d2 := d1.(stack := d1.stack + [y]);
    var end := at + |cl| + |cr|;
    PartOne(P, end, IBin(op));
    BinaryStep(alu, P, end, op, d, x, y);
    ReachesTransitive(alu, P, State(at, d), State(at + |cl|, d1), State(end, d2));
    ReachesTransitive(alu, P, State(at, d), State(end, d2), State(end + 1, d.(stack := d.stack + [alu.bin(op, x, y)])));
  }

  lemma {:induction false} UnaryStep(alu: Alu, P: seq<Instr>, pc: nat, op: UnOp, d: Data, x: int)
    requires pc < |P| && P[pc] == IUn(op)
    ensures Reaches(alu, P, State(pc, d.(stack := d.stack + [x])),
            State(pc + 1, d.(stack := d.stack + [alu.un(op, x)])))
  {
    var d1 := d.(stack := d.stack + [x]);
    assert d1.stack[..|d.stack|] == d.stack;
    ReachesStep(alu, P, State(pc, d1), State(pc + 1, d.(stack := d.stack + [alu.un(op, x)])));
  }

  lemma {:induction false} BinaryStep(alu: Alu, P: seq<Instr>, pc: nat, op: BinOp, d: Data, x: int, y: int)
    requires pc < |P| && P[pc] == IBin(op)
    ensures Reaches(alu, P, State(pc, d.(stack := d.stack + [x] + [y])),
            State(pc + 1, d.(stack := d.stack + [alu.bin(op, x, y)])))
  {
    var d2 := d.(stack := d.stack + [x] + [y]);
    assert d2.stack[..|d.stack|] == d.stack;
    ReachesStep(alu, P, State(pc, d2), State(pc + 1, d.(stack := d.stack + [alu.bin(op, x, y)])));
  }

  /** The state of a source program and of the machine correspond. */
  ghost predicate Matches(f: Frame, o: Outcome, d: Data) {
    Holds(f, o.env, d.mem) && d.out == o.out
  }

  /** The code of an expression followed by a primitive that consumes its value. */
  lemma {:induction false} ExprThen(
    alu: Alu, P: seq<Instr>, f: Frame, e: Expr, at: nat, i: Instr, env: Env, d: Data)
    returns (d1: Data)
    requires PartAt(P, at, CompileExpr(f, e) + [i]) && OwnExpr(f, e) && Holds(f, env, d.mem)
    ensures var n := at + |CompileExpr(f, e)|;
            n < |P| && P[n] == i && Reaches(alu, P, State(at, d), State(n, d1))
    ensures d1 == d.(stack := d.stack + [Eval(alu, e, env)])
    ensures d1.stack[..|d1.stack|-1] == d.stack && d1.stack[|d1.stack|-1] == Eval(alu, e, env)
  {
    var c := CompileExpr(f, e);
    PartSplit(P, at, c, [i]);
    PartOne(P, at + |c|, i);
    ExprCorrect(alu, P, f, e, at, env, d);
    d1 := d.(stack := d.stack + [Eval(alu, e, env)]);
  }

  lemma {:induction false} OneMore(alu: Alu, P: seq<Instr>, s: State, t: State, u: State)
    requires Reaches(alu, P, s, t) && Step(alu, P, t) == Some(u)
    ensures Reaches(alu, P, s, u)
  {
    ReachesStep(alu, P, t, u);
    ReachesTransitive(alu, P, s, t, u);
  }

  /** Whenever statements terminate, their code runs from its first primitive to
      behind its last, with the same stack, the same locals and output. */
  lemma {:induction false} StmtsCorrect(
    alu: Alu, P: seq<Instr>, f: Frame, ss: Stmts, at: nat, o: Outcome, fuel: nat, d: Data)
    returns (d': Data)
    requires PartAt(P, at, CompileStmts(f, ss, at)) && FrameOk(f) && OwnStmts(f, ss) && Matches(f, o, d)
    requires Exec(alu, ss, o, fuel).Some?
    ensures Reaches(alu, P, State(at, d), State(at + |CompileStmts(f, ss, at)|, d'))
    ensures d'.stack == d.stack && Matches(f, Exec(alu, ss, o, fuel).value, d')
    decreases fuel, ss, 2
  {
    match ss
    case Nil =>
      ReachesSelf(alu, P, State(at, d));
      d' := d;
    case Cons(s, rest) =>
      var c := CompileStmt(f, s, at);
      PartSplit(P, at, c, CompileStmts(f, rest, at + |c|));
      var d1 := StmtCorrect(alu, P, f, s, at, o, fuel, d);
      d' := StmtsCorrect(alu, P, f, rest, at + |c|, ExecStmt(alu, s, o, fuel).value, fuel, d1);
      ReachesTransitive(alu, P, State(at, d), State(at + |c|, d1), State(at + |CompileStmts(f, ss, at)|, d'));
  }

  lemma {:induction false} AssignCorrect(
    alu: Alu, P: seq<Instr>, f: Frame, x: string, e: Expr, at: nat, o: Outcome, d: Data)
    returns (d': Data)
    requires PartAt(P, at, CompileExpr(f, e) + [IStore(VarOffset(f, x))]) && FrameOk(f) && Own(f, x) && OwnExpr(f, e)
             && Matches(f, o, d)
    ensures Reaches(alu, P, State(at, d), State(at + |CompileExpr(f, e)| + 1, d'))
    ensures d'.stack == d.stack && Matches(f, o.(env := o.env[x := Eval(alu, e, o.env)]), d')
  {
    var v, n := Eval(alu, e, o.env), at + |CompileExpr(f, e)|;
    var d1 := ExprThen(alu, P, f, e, at, IStore(VarOffset(f, x)), o.env, d);
    HoldsStore(f, o.env, d.mem, x, v);
    d' := d.(mem := d.mem[VarOffset(f, x) := v]);
    OneMore(alu, P, State(at, d), State(n, d1), State(n + 1, d'));
  }

  lemma {:induction false} StmtCorrect(
    alu: Alu, P: seq<Instr>, f: Frame, s: Stmt, at: nat, o: Outcome, fuel: nat, d: Data)
    returns (d': Data)
    requires PartAt(P, at, CompileStmt(f, s, at)) && FrameOk(f) && OwnStmt(f, s) && Matches(f, o, d)
    requires ExecStmt(alu, s, o, fuel).Some?
    ensures Reaches(alu, P, State(at, d), State(at + |CompileStmt(f, s, at)|, d'))
    ensures d'.stack == d.stack && Matches(f, ExecStmt(alu, s, o, fuel).value, d')
    decreases fuel, s
  {
    var end := at + |CompileStmt(f, s, at)|;
    match s
    case Assign(x, e) =>
      d' := AssignCorrect(alu, P, f, x, e, at, o, d);
    case Print(e) =>
      var d1 := ExprThen(alu, P, f, e, at, IPrint, o.env, d);
      d' := d.(out := d.out + [Eval(alu, e, o.env)]);
      OneMore(alu, P, State(at, d), State(end - 1, d1), State(end, d'));
    case Drop(e) =>
      var d1 := ExprThen(alu, P, f, e, at, IDrop, o.env, d);
      d' := d;
      OneMore(alu, P, State(at, d), State(end - 1, d1), State(end, d'));
    case If(e, thn, els) =>
      d' := IfCorrect(alu, P, f, s, at, o, fuel, d);
    case While(e, body) =>
      d' := WhileCorrect(alu, P, f, s, at, o, fuel, d);
  }

  /** The condition of a statement has been tested by a `zbranch` to `l`. */
  lemma {:induction false} TestCorrect(
    alu: Alu, P: seq<Instr>, f: Frame, e: Expr, at: nat, l: nat, rest: seq<Instr>, o: Outcome, d: Data)
    requires PartAt(P, at, CompileExpr(f, e) + [IZBranch(Some(l))] + rest) && OwnExpr(f, e) && Matches(f, o, d)
    ensures var n := at + |CompileExpr(f, e)| + 1;
            && PartAt(P, n, rest)
            && Reaches(alu, P, State(at, d), State(if Eval(alu, e, o.env) == 0 then l else n, d))
  {
    var c := CompileExpr(f, e);
    PartSplit(P, at, c + [IZBranch(Some(l))], rest);
    var d1 := ExprThen(alu, P, f, e, at, IZBranch(Some(l)), o.env, d);
    OneMore(alu, P, State(at, d), State(at + |c|, d1), State(if Eval(alu, e, o.env) == 0 then l else at + |c| + 1, d));
  }

  lemma {:induction false} IfCorrect(
    alu: Alu, P: seq<Instr>, f: Frame, s: Stmt, at: nat, o: Outcome, fuel: nat, d: Data)
    returns (d': Data)
    requires s.If? && PartAt(P, at, CompileStmt(f, s, at)) && FrameOk(f) && OwnStmt(f, s) && Matches(f, o, d)
    requires ExecStmt(alu, s, o, fuel).Some?
    ensures Reaches(alu, P, State(at, d), State(at + |CompileStmt(f, s, at)|, d'))
    ensures d'.stack == d.stack && Matches(f, ExecStmt(alu, s, o, fuel).value, d')
    decreases fuel, s, 1
  {
    if s.els.NoElse? {
      d' := IfOnlyCorrect(alu, P, f, s, at, o, fuel, d);
    } else {
      d' := IfElseCorrect(alu, P, f, s, at, o, fuel, d);
    }
  }

  lemma {:induction false} IfOnlyCorrect(
    alu: Alu, P: seq<Instr>, f: Frame, s: Stmt, at: nat, o: Outcome, fuel: nat, d: Data)
    returns (d': Data)
    requires s.If? && s.els.NoElse? && PartAt(P, at, CompileStmt(f, s, at)) && FrameOk(f) && OwnStmt(f, s)
             && Matches(f, o, d)
    requires ExecStmt(alu, s, o, fuel).Some?
    ensures Reaches(alu, P, State(at, d), State(at + |CompileStmt(f, s, at)|, d'))
    ensures d'.stack == d.stack && Matches(f, ExecStmt(alu, s, o, fuel).value, d')
    decreases fuel, s, 0
  {
    var n := at + |CompileExpr(f, s.e)| + 1;
    var t := CompileStmts(f, s.thn, n);
    TestCorrect(alu, P, f, s.e, at, n + |t|, t, o, d);
    if Eval(alu, s.e, o.env) == 0 {
      d' := d;
    } else {
      d' := StmtsCorrect(alu, P, f, s.thn, n, o, fuel, d);
      ReachesTransitive(alu, P, State(at, d), State(n, d), State(n + |t|, d'));
    }
  }

  lemma {:induction false} IfElseParts(
    alu: Alu, P: seq<Instr>, f: Frame, s: Stmt, at: nat, o: Outcome, d: Data, n: nat, t: seq<Instr>, l: nat,
    u: seq<Instr>)
    requires s.If? && s.els.Else? && PartAt(P, at, CompileStmt(f, s, at)) && OwnStmt(f, s) && Matches(f, o, d)
    requires n == at + |CompileExpr(f, s.e)| + 1 && t == CompileStmts(f, s.thn, n)
    requires l == n + |t| + 1 && u == CompileStmts(f, s.els.ss, l)
    ensures PartAt(P, n, t) && PartAt(P, l, u) && n + |t| < |P| && P[n + |t|] == IBranch(Some(l + |u|))
    ensures at + |CompileStmt(f, s, at)| == l + |u|
    ensures Reaches(alu, P, State(at, d), State(if Eval(alu, s.e, o.env) == 0 then l else n, d))
  {
    var j := IBranch(Some(l + |u|));
    IfElseShape(f, s, at, l, t, u, j);
    TestCorrect(alu, P, f, s.e, at, l, t + [j] + u, o, d);
    ThenParts(P, n, t, j, u);
  }

  lemma {:induction false} ThenParts(P: seq<Instr>, n: nat, t: seq<Instr>, j: Instr, u: seq<Instr>)
    requires PartAt(P, n, t + [j] + u)
    ensures PartAt(P, n, t) && PartAt(P, n + |t| + 1, u) && n + |t| < |P| && P[n + |t|] == j
  {
    PartSplit(P, n, t + [j], u);
    PartSplit(P, n, t, [j]);
    PartOne(P, n + |t|, j);
  }

  lemma {:induction false} IfElseCorrect(
    alu: Alu, P: seq<Instr>, f: Frame, s: Stmt, at: nat, o: Outcome, fuel: nat, d: Data)
    returns (d': Data)
    requires s.If? && s.els.Else? && PartAt(P, at, CompileStmt(f, s, at)) && FrameOk(f) && OwnStmt(f, s)
             && Matches(f, o, d)
    requires ExecStmt(alu, s, o, fuel).Some?
    ensures Reaches(alu, P, State(at, d), State(at + |CompileStmt(f, s, at)|, d'))
    ensures d'.stack == d.stack && Matches(f, ExecStmt(alu, s, o, fuel).value, d')
    decreases fuel, s, 0
  {
    var n := at + |CompileExpr(f, s.e)| + 1;
    var t := CompileStmts(f, s.thn, n);
    var l := n + |t| + 1;
    var u := CompileStmts(f, s.els.ss, l);
    IfElseParts(alu, P, f, s, at, o, d, n, t, l, u);
    var start := State(at, d);
    if Eval(alu, s.e, o.env) == 0 {
      d' := StmtsCorrect(alu, P, f, s.els.ss, l, o, fuel, d);
      ReachesTransitive(alu, P, start, State(l, d), State(l + |u|, d'));
    } else {
      d' := BodyCorrect(alu, P, f, s.thn, start, n, l + |u|, o, fuel, d);
    }
  }

  /** Statements that end with a branch. */
  lemma {:induction false} BodyCorrect(
    alu: Alu, P: seq<Instr>, f: Frame, ss: Stmts, s: State, n: nat, l: nat, o: Outcome, fuel: nat, d: Data)
    returns (d': Data)
    requires PartAt(P, n, CompileStmts(f, ss, n)) && FrameOk(f) && OwnStmts(f, ss) && Matches(f, o, d)
    requires var end := n + |CompileStmts(f, ss, n)|; end < |P| && P[end] == IBranch(Some(l))
    requires Exec(alu, ss, o, fuel).Some? && Reaches(alu, P, s, State(n, d))
    ensures Reaches(alu, P, s, State(l, d'))
    ensures d'.stack == d.stack && Matches(f, Exec(alu, ss, o, fuel).value, d')
    decreases fuel, ss, 3
  {
    var end := n + |CompileStmts(f, ss, n)|;
    d' := StmtsCorrect(alu, P, f, ss, n, o, fuel, d);
    ReachesTransitive(alu, P, s, State(n, d), State(end, d'));
    OneMore(alu, P, s, State(end, d'), State(l, d'));
  }

  lemma {:induction false} IfElseShape(f: Frame, s: Stmt, at: nat, l: nat, t: seq<Instr>, u: seq<Instr>, j: Instr)
    requires s.If? && s.els.Else? && var n := at + |CompileExpr(f, s.e)| + 1;
             t == CompileStmts(f, s.thn, n) && l == n + |t| + 1 && u == CompileStmts(f, s.els.ss, l)
               && j == IBranch(Some(l + |u|))
    ensures CompileStmt(f, s, at) == CompileExpr(f, s.e) + [IZBranch(Some(l))] + (t + [j] + u)
    ensures at + |CompileStmt(f, s, at)| == l + |u|
  {
  }

  lemma {:induction false} WhileCorrect(
    alu: Alu, P: seq<Instr>, f: Frame, s: Stmt, at: nat, o: Outcome, fuel: nat, d: Data)
    returns (d': Data)
    requires s.While? && PartAt(P, at, CompileStmt(f, s, at)) && FrameOk(f) && OwnStmt(f, s) && Matches(f, o, d)
    requires ExecStmt(alu, s, o, fuel).Some?
    ensures Reaches(alu, P, State(at, d), State(at + |CompileStmt(f, s, at)|, d'))
    ensures d'.stack == d.stack && Matches(f, ExecStmt(alu, s, o, fuel).value, d')
    decreases fuel, s, 0
  {
    var n := at + |CompileExpr(f, s.e)| + 1;
    var t := CompileStmts(f, s.body, n);
    var j := IBranch(Some(at));
    var end := n + |t| + 1;
    assert CompileStmt(f, s, at) == CompileExpr(f, s.e) + [IZBranch(Some(end))] + (t + [j]);
    TestCorrect(alu, P, f, s.e, at, end, t + [j], o, d);
    if Eval(alu, s.e, o.env) == 0 {
      d' := d;
    } else {
      PartSplit(P, n, t, [j]);
      PartOne(P, n + |t|, j);
      var d1 := BodyCorrect(alu, P, f, s.body, State(at, d), n, at, o, fuel - 1, d);
      var o1 := Exec(alu, s.body, o, fuel - 1).value;
      d' := WhileCorrect(alu, P, f, s, at, o1, fuel - 1, d1);
      ReachesTransitive(alu, P, State(at, d), State(at, d1), State(end, d'));
    }
  }
}
