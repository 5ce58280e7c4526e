/** The mini language and the primitives of its virtual machine
    (vmgen-ex/mini.y, vmgen-ex/mini-inst.vmg). */
module MiniLanguage {
  import opened Basics

  datatype BinOp = Add | Sub | Mul | And | Or | LessThan | Equals
  datatype UnOp = Not | Negate

  /** How the machine computes; results hold for every interpretation of the
      operators on cells. */
  datatype Alu = Alu(bin: (BinOp, int, int) -> int, un: (UnOp, int) -> int)

  datatype Expr = Num(i: int) | Var(name: string) | Binary(op: BinOp, l: Expr, r: Expr) | Unary(uop: UnOp, e: Expr)

  datatype Stmt =
    | Assign(name: string, e: Expr)
    | Print(e: Expr)
    | Drop(e: Expr)
    | If(e: Expr, thn: Stmts, els: Else)
    | While(e: Expr, body: Stmts)
  datatype Stmts = Nil | Cons(first: Stmt, rest: Stmts)
  datatype Else = NoElse | Else(ss: Stmts)

  type Env = map<string, int>

  // ----- what a program means -----

  function Eval(alu: Alu, e: Expr, env: Env): int {
    match e
    case Num(i) => i
    case Var(x) => if x in env then env[x] else 0
    case Binary(op, l, r) => alu.bin(op, Eval(alu, l, env), Eval(alu, r, env))
    case Unary(op, e) => alu.un(op, Eval(alu, e, env))
  }

  datatype Outcome = Outcome(env: Env, out: seq<int>)

  /** Runs statements for at most `fuel` loop iterations in a row. */
  function Exec(alu: Alu, ss: Stmts, o: Outcome, fuel: nat): Option<Outcome>
    decreases fuel, ss
  {
    match ss
    case Nil => Some(o)
    case Cons(s, rest) =>
      match ExecStmt(alu, s, o, fuel)
      case None => None
      case Some(o') => Exec(alu, rest, o', fuel)
  }

  function ExecStmt(alu: Alu, s: Stmt, o: Outcome, fuel: nat): Option<Outcome>
    decreases fuel, s
  {
    match s
    case Assign(x, e) => Some(o.(env := o.env[x := Eval(alu, e, o.env)]))
    case Print(e) => Some(o.(out := o.out + [Eval(alu, e, o.env)]))
    case Drop(e) => Some(o)
    case If(e, thn, els) =>
      if Eval(alu, e, o.env) != 0 then Exec(alu, thn, o, fuel)
      else if els.Else? then Exec(alu, els.ss, o, fuel)
      else Some(o)
    case While(e, body) =>
      if Eval(alu, e, o.env) == 0 then Some(o)
      else if fuel == 0 then None
      else
        match Exec(alu, body, o, fuel - 1)
        case None => None
        case Some(o') => ExecStmt(alu, s, o', fuel - 1)
  }

  // ----- local variables -----

  /** `struct vartab`, and the table as a list with the newest entry first. */
  datatype VarEntry = VarEntry(name: string, index: nat)
  datatype Frame = Frame(vtab: seq<VarEntry>, locals: nat)

  /** The entry that `lookup_var` finds. */
  function LookupVar(vtab: seq<VarEntry>, name: string): (k: Option<nat>)
    ensures k.Some? ==> k.value < |vtab| && vtab[k.value].name == name
    ensures k.Some? ==> forall j | 0 <= j < k.value :: vtab[j].name != name
    ensures k.None? ==> forall j | 0 <= j < |vtab| :: vtab[j].name != name
  {
    if vtab == [] then None
    else if vtab[0].name == name then Some(0)
    else
      match LookupVar(vtab[1..], name)
      case None => None
      case Some(k) => Some(k + 1)
  }

  /** `var_offset`, with cells of 8 bytes. */
  function VarOffset(f: Frame, name: string): int {
    match LookupVar(f.vtab, name)
    case None => 0
    case Some(k) => (f.locals - f.vtab[k].index + 2) * 8
  }

  /** The newest `locals` entries are those of the current function. */
  ghost predicate FrameOk(f: Frame) {
    f.locals <= |f.vtab| && forall k | 0 <= k < f.locals :: f.vtab[k].index == f.locals - k
  }

  predicate Own(f: Frame, name: string) {
    var k := LookupVar(f.vtab, name);
    k.Some? && k.value < f.locals
  }

  /** `insert_local` */
  function InsertLocal(f: Frame, name: string): Frame {
    Frame([VarEntry(name, f.locals + 1)] + f.vtab, f.locals + 1)
  }

  lemma {:induction false} InsertLocalOk(f: Frame, name: string)
    requires FrameOk(f)
    ensures FrameOk(InsertLocal(f, name)) && Own(InsertLocal(f, name), name)
    ensures forall x | Own(f, x) :: Own(InsertLocal(f, name), x)
  {
    var f' := InsertLocal(f, name);
    assert f'.vtab[1..] == f.vtab;
  }

  /** The newest variable is next to the saved frame pointer, and all others are
      one cell further up than before. */
  lemma {:induction false} InsertLocalOffsets(f: Frame, name: string, x: string)
    ensures VarOffset(InsertLocal(f, name), name) == 16
    ensures x != name && LookupVar(f.vtab, x).Some? ==>
              VarOffset(InsertLocal(f, name), x) == VarOffset(f, x) + 8
  {
    var f' := InsertLocal(f, name);
    assert f'.vtab[1..] == f.vtab;
  }

  /** The frame of a function with these parameters, in the order in which a
      caller pushes its arguments. */
  function Declared(names: seq<string>): Frame {
    if names == [] then Frame([], 0)
    else InsertLocal(Declared(names[..|names| - 1]), names[|names| - 1])
  }

  ghost predicate AllDistinct(names: seq<string>) {
    forall i, j | 0 <= i < j < |names| :: names[i] != names[j]
  }

  /** The arguments lie in the frame with the last one lowest. */
  lemma {:induction false} DeclaredOffsets(names: seq<string>, i: nat)
    requires AllDistinct(names) && i < |names|
    ensures LookupVar(Declared(names).vtab, names[i]).Some?
    ensures VarOffset(Declared(names), names[i]) == 16 + 8 * (|names| - 1 - i)
    decreases |names|
  {
    var n := |names| - 1;
    var f := Declared(names[..n]);
    InsertLocalOffsets(f, names[n], names[i]);
    assert InsertLocal(f, names[n]).vtab[1..] == f.vtab;
    if i < n { DeclaredOffsets(names[..n], i); }
  }

  /** Different variables of a function live in different cells of its frame,
      above the return address and the saved frame pointer. */
  lemma {:induction false} OffsetsDistinct(f: Frame, x: string, y: string)
    requires FrameOk(f) && Own(f, x) && Own(f, y)
    ensures VarOffset(f, x) == VarOffset(f, y) <==> x == y
    ensures 16 <= VarOffset(f, x) <= (f.locals + 1) * 8 && VarOffset(f, x) % 8 == 0
  {
  }

  predicate OwnExpr(f: Frame, e: Expr) {
    match e
    case Num(_) => true
    case Var(x) => Own(f, x)
    case Binary(_, l, r) => OwnExpr(f, l) && OwnExpr(f, r)
    case Unary(_, e) => OwnExpr(f, e)
  }

  /** All variables used are declared in the current function. */
  predicate OwnStmts(f: Frame, ss: Stmts) {
    match ss
    case Nil => true
    case Cons(s, rest) => OwnStmt(f, s) && OwnStmts(f, rest)
  }

  predicate OwnStmt(f: Frame, s: Stmt) {
    match s
    case Assign(x, e) => Own(f, x) && OwnExpr(f, e)
    case Print(e) => OwnExpr(f, e)
    case Drop(e) => OwnExpr(f, e)
    case If(e, thn, els) => OwnExpr(f, e) && OwnStmts(f, thn) && (els.Else? ==> OwnStmts(f, els.ss))
    case While(e, body) => OwnExpr(f, e) && OwnStmts(f, body)
  }
}
