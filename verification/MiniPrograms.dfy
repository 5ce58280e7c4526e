/** What two functions of the mini test program compute (vmgen-ex/test.mini). */
module MiniPrograms {
  import opened Basics
  import opened MiniLanguage

  /** Operators on numbers, as far as they are used here. */
  ghost predicate Arithmetic(alu: Alu) {
    && (forall x: int, y: int :: alu.bin(Mul, x, y) == x * y && alu.bin(Sub, x, y) == x - y)
    && (forall x: int, y: int :: alu.bin(LessThan, x, y) == if x < y then 1 else 0)
    && (forall x: int :: alu.un(Negate, x) == -x)
  }

  function Factorial(n: nat): nat {
    if n == 0 then 1 else Factorial(n - 1) * n
  }

  const BODY := Cons(Assign("r", Binary(Mul, Var("r"), Var("n"))),
                Cons(Assign("n", Binary(Sub, Var("n"), Num(1))), Nil))

  const LOOP := While(Binary(LessThan, Num(0), Var("n")), BODY)

  /** The statements of `itfac`. */
  const ITFAC := Cons(Assign("r", Num(1)), Cons(LOOP, Nil))

  lemma {:induction false} Values(alu: Alu, env: Env)
    requires Arithmetic(alu) && "n" in env
    ensures Eval(alu, Binary(Sub, Var("n"), Num(1)), env) == env["n"] - 1
    ensures Eval(alu, Binary(LessThan, Num(0), Var("n")), env) == if 0 < env["n"] then 1 else 0
    ensures Eval(alu, Binary(LessThan, Var("n"), Num(0)), env) == if env["n"] < 0 then 1 else 0
    ensures Eval(alu, Unary(Negate, Num(1)), env) == -1
    ensures "r" in env ==> Eval(alu, Binary(Mul, Var("r"), Var("n")), env) == env["r"] * env["n"]
  {
    assert Eval(alu, Var("n"), env) == env["n"] && Eval(alu, Num(0), env) == 0 && Eval(alu, Num(1), env) == 1;
    assert "r" in env ==> Eval(alu, Var("r"), env) == env["r"];
  }

  lemma {:induction false} BodyRun(alu: Alu, o: Outcome, fuel: nat)
    requires Arithmetic(alu) && "r" in o.env && "n" in o.env
    ensures Exec(alu, BODY, o, fuel) ==
            Some(o.(env := o.env["r" := o.env["r"] * o.env["n"]]["n" := o.env["n"] - 1]))
  {
    var o1 := o.(env := o.env["r" := o.env["r"] * o.env["n"]]);
    Values(alu, o.env);
    Values(alu, o1.env);
    assert ExecStmt(alu, BODY.first, o, fuel) == Some(o1);
    assert ExecStmt(alu, BODY.rest.first, o1, fuel) == Some(o1.(env := o1.env["n" := o.env["n"] - 1]));
    assert Exec(alu, BODY.rest, o1, fuel) == Some(o1.(env := o1.env["n" := o.env["n"] - 1]));
  }

  lemma {:induction false} LoopRun(alu: Alu, o: Outcome, fuel: nat)
    requires Arithmetic(alu) && "r" in o.env && "n" in o.env && 0 <= o.env["n"] <= fuel
    ensures ExecStmt(alu, LOOP, o, fuel) ==
            Some(o.(env := o.env["r" := o.env["r"] * Factorial(o.env["n"])]["n" := 0]))
    decreases fuel
  {
    var n := o.env["n"];
    Values(alu, o.env);
    if n == 0 {
      assert o.env["r" := o.env["r"] * 1]["n" := 0] == o.env;
    } else {
      BodyRun(alu, o, fuel - 1);
      var o' := Exec(alu, BODY, o, fuel - 1).value;
      LoopRun(alu, o', fuel - 1);
      var v := o.env["r"] * Factorial(n);
      MulAssoc(o.env["r"], n, Factorial(n - 1));
      assert n * Factorial(n - 1) == Factorial(n) && o'.env["r"] * Factorial(n - 1) == v;
      assert o'.env["r" := v]["n" := 0] == o.env["r" := v]["n" := 0];
    }
  }

  /** `itfac` leaves the factorial of its argument in `r`. */
  lemma {:induction false} ItfacRun(alu: Alu, o: Outcome, fuel: nat)
    requires Arithmetic(alu) && "n" in o.env && 0 <= o.env["n"] <= fuel
    ensures Exec(alu, ITFAC, o, fuel) == Some(o.(env := o.env["r" := Factorial(o.env["n"])]["n" := 0]))
  {
    var o1 := o.(env := o.env["r" := 1]);
    assert ExecStmt(alu, ITFAC.first, o, fuel) == Some(o1);
    LoopRun(alu, o1, fuel);
    assert 1 * Factorial(o.env["n"]) == Factorial(o.env["n"]);
    var o2 := o.(env := o.env["r" := Factorial(o.env["n"])]["n" := 0]);
    assert o1.env["r" := Factorial(o.env["n"])]["n" := 0] == o2.env;
    assert Exec(alu, Cons(LOOP, Nil), o1, fuel) == Some(o2);
  }

  /** The statements of `sign`. */
  const SIGN := If(Binary(LessThan, Var("n"), Num(0)),
                   Cons(Assign("r", Unary(Negate, Num(1))), Nil),
                   Else(Cons(INNER, Nil)))

  const INNER := If(Binary(LessThan, Num(0), Var("n")),
                    Cons(Assign("r", Num(1)), Nil),
                    Else(Cons(Assign("r", Num(0)), Nil)))

  lemma {:induction false} AssignRun(alu: Alu, x: string, e: Expr, o: Outcome, fuel: nat)
    ensures Exec(alu, Cons(Assign(x, e), Nil), o, fuel) == Some(o.(env := o.env[x := Eval(alu, e, o.env)]))
  {
    assert Exec(alu, Nil, o.(env := o.env[x := Eval(alu, e, o.env)]), fuel).Some?;
  }

  /** `sign` leaves the sign of its argument in `r`. */
  lemma {:induction false} SignRun(alu: Alu, o: Outcome, fuel: nat)
    requires Arithmetic(alu) && "n" in o.env
    ensures var n := o.env["n"];
            ExecStmt(alu, SIGN, o, fuel) ==
            Some(o.(env := o.env["r" := if n < 0 then -1 else if n > 0 then 1 else 0]))
  {
    Values(alu, o.env);
    AssignRun(alu, "r", Unary(Negate, Num(1)), o, fuel);
    AssignRun(alu, "r", Num(1), o, fuel);
    AssignRun(alu, "r", Num(0), o, fuel);
    var t := ExecStmt(alu, INNER, o, fuel);
    assert t.Some? ==> Exec(alu, Cons(INNER, Nil), o, fuel) == Exec(alu, Nil, t.value, fuel) == t;
  }
}
