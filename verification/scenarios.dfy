/** Whole evaluations from the initial session state, one per documented
    behaviour of the engine. */
module Scenarios {
  import opened Outcomes
  import opened Terms
  import opened Builtins
  import opened Substitution
  import opened Engine
  import opened EngineLaws

  /** Sum[2, 3] folds to 5 and leaves the session unchanged. */
  lemma SumOfConstants(fuel: nat, cfg: Config)
    ensures Eval(fuel, cfg, Initial, App("Sum", [Const(2.0), Const(3.0)])) == Ok(Reduced(Const(5.0), Initial))
  {
    NativeCall(fuel, cfg, Initial, "Sum", SumOp, [Const(2.0), Const(3.0)]);
    assert Leaves(Initial.scope, [Const(2.0), Const(3.0)]) == [Const(2.0), Const(3.0)];
    SumOfTwoConstants("Sum", 2.0, 3.0);
  }

  /** Sum[2, x] with x unbound stays symbolic. */
  lemma SumWithFreeName(fuel: nat, cfg: Config)
    ensures Eval(fuel, cfg, Initial, App("Sum", [Const(2.0), Name("x")]))
            == Ok(Reduced(App("Sum", [Const(2.0), Name("x")]), Initial))
  {
    BuiltinOnLeaves(fuel, cfg, "Sum", SumOp, Const(2.0), Name("x"));
    SumConstantAndName("Sum", 2.0, "x");
  }

  /** Sum[0, x] drops the neutral constant and answers Sum[x]. */
  lemma SumDropsZero(fuel: nat, cfg: Config)
    ensures Eval(fuel, cfg, Initial, App("Sum", [Const(0.0), Name("x")]))
            == Ok(Reduced(App("Sum", [Name("x")]), Initial))
  {
    BuiltinOnLeaves(fuel, cfg, "Sum", SumOp, Const(0.0), Name("x"));
    SumConstantAndName("Sum", 0.0, "x");
  }

  /** The evaluator keeps the source's Mul: Mul[0, x] drops the zero factor
      and answers Mul[x], which no longer stands for 0. */
  lemma MulDropsZeroFactor(fuel: nat, cfg: Config)
    ensures Eval(fuel, cfg, Initial, App("Mul", [Const(0.0), Name("x")]))
            == Ok(Reduced(App("Mul", [Name("x")]), Initial))
  {
    BuiltinOnLeaves(fuel, cfg, "Mul", MulOp, Const(0.0), Name("x"));
    MulAsWrittenDropsZero();
  }

  /** With nothing bound, a built-in sees its two leaf operands as written
      and the session is unchanged. */
  lemma BuiltinOnLeaves(fuel: nat, cfg: Config, f: string, op: Builtin, a: Symbol, b: Symbol)
    requires f in BuiltinTable && BuiltinTable[f] == Native(op) && !a.App? && !b.App?
    ensures Eval(fuel, cfg, Initial, App(f, [a, b])) ==
            match Apply(op, f, [a, b], cfg.pow) case Ok(s) => Ok(Reduced(s, Initial)) case Err(err) => Err(err)
  {
    NativeCall(fuel, cfg, Initial, f, op, [a, b]);
    assert Leaves(Initial.scope, [a, b]) == [a, b];
  }

  /** Greater compares constants: 5 > 4 is True. */
  lemma GreaterHolds(fuel: nat, cfg: Config)
    ensures Eval(fuel, cfg, Initial, App("Greater", [Const(5.0), Const(4.0)])) == Ok(Reduced(TrueName, Initial))
  {
    BuiltinOnLeaves(fuel, cfg, "Greater", GreaterOp, Const(5.0), Const(4.0));
  }

  /** 4 > 5 is False. */
  lemma GreaterFails(fuel: nat, cfg: Config)
    ensures Eval(fuel, cfg, Initial, App("Greater", [Const(4.0), Const(5.0)])) == Ok(Reduced(FalseName, Initial))
  {
    BuiltinOnLeaves(fuel, cfg, "Greater", GreaterOp, Const(4.0), Const(5.0));
  }

  /** Greater answers False as soon as an operand is not a constant. */
  lemma GreaterOnFreeName(fuel: nat, cfg: Config)
    ensures Eval(fuel, cfg, Initial, App("Greater", [Name("x"), Const(5.0)])) == Ok(Reduced(FalseName, Initial))
  {
    BuiltinOnLeaves(fuel, cfg, "Greater", GreaterOp, Name("x"), Const(5.0));
  }

  /** Div truncates toward zero: Div[-7, 2] is -3. */
  lemma DivNegative(fuel: nat, cfg: Config)
    ensures Eval(fuel, cfg, Initial, App("Div", [Const(-7.0), Const(2.0)])) == Ok(Reduced(Const(-3.0), Initial))
  {
    Arith.NegativeDividend();
    BuiltinOnLeaves(fuel, cfg, "Div", DivOp, Const(-7.0), Const(2.0));
  }

  /** Rem takes the dividend's sign: Rem[-7, 2] is -1. */
  lemma RemNegative(fuel: nat, cfg: Config)
    ensures Eval(fuel, cfg, Initial, App("Rem", [Const(-7.0), Const(2.0)])) == Ok(Reduced(Const(-1.0), Initial))
  {
    Arith.NegativeDividend();
    BuiltinOnLeaves(fuel, cfg, "Rem", RemOp, Const(-7.0), Const(2.0));
  }

  /** Div[1, 0] raises. */
  lemma DivByZero(fuel: nat, cfg: Config)
    ensures Eval(fuel, cfg, Initial, App("Div", [Const(1.0), Const(0.0)])) == Err(DivideByZero)
  {
    BuiltinOnLeaves(fuel, cfg, "Div", DivOp, Const(1.0), Const(0.0));
  }

  /** The session state after defining Inc[t] := Sum[t, 1]. */
  function WithInc(): (st: State)
    ensures WellFormed(st) && Grows(Initial, st) && "Inc" in st.rules
  {
    InitialWellFormed();
    Initial.(registry := Initial.registry["Inc" := DelayedCall],
             rules := Initial.rules["Inc" := Rule("t", "Sum", [Name("t"), Const(1.0)])])
  }

  /** Inc[5] expands to Sum[5, 1], which costs one unit of fuel. */
  lemma IncrementExpands(fuel: nat, cfg: Config)
    requires fuel >= 1
    ensures Eval(fuel, cfg, WithInc(), App("Inc", [Const(5.0)])) ==
            Eval(fuel - 1, cfg, WithInc(), App("Sum", [Const(5.0), Const(1.0)]))
  {
    var st := WithInc();
    DelayedCallExpands(fuel, cfg, st, "Inc", [Const(5.0)]);
    assert Leaves(st.scope, [Const(5.0)])[0] == Const(5.0);
    var body := Replace(App("Sum", [Name("t"), Const(1.0)]), "t", Const(5.0));
    assert body.args[0] == Const(5.0) && body.args[1] == Const(1.0);
    assert body == App("Sum", [Const(5.0), Const(1.0)]);
  }

  /** Without fuel the call cannot be expanded. */
  lemma IncrementNeedsFuel(cfg: Config)
    ensures Eval(0, cfg, WithInc(), App("Inc", [Const(5.0)])) == Err(OutOfFuel)
  {
    DelayedCallExpands(0, cfg, WithInc(), "Inc", [Const(5.0)]);
  }

  lemma IncrementBody(fuel: nat, cfg: Config)
    ensures Eval(fuel, cfg, WithInc(), App("Sum", [Const(5.0), Const(1.0)])) == Ok(Reduced(Const(6.0), WithInc()))
  {
    var st := WithInc();
    NativeCall(fuel, cfg, st, "Sum", SumOp, [Const(5.0), Const(1.0)]);
    assert Leaves(st.scope, [Const(5.0), Const(1.0)]) == [Const(5.0), Const(1.0)];
    SumOfTwoConstants("Sum", 5.0, 1.0);
  }

  /** Calling a delayed rule: Inc[5] folds to 6 with one unit of fuel. */
  lemma IncrementCall(fuel: nat, cfg: Config)
    requires fuel >= 1
    ensures Eval(fuel, cfg, WithInc(), App("Inc", [Const(5.0)])) == Ok(Reduced(Const(6.0), WithInc()))
  {
    var k := fuel - 1;
    IncrementExpands(fuel, cfg);
    IncrementBody(k, cfg);
  }

  /** Delayed[Inc, t, Sum[t, 1]] stores the rule and answers itself. */
  lemma DefineIncrement(fuel: nat, cfg: Config)
    ensures var def := App(DelayedAction, [Name("Inc"), Name("t"), App("Sum", [Name("t"), Const(1.0)])]);
      Resolve(fuel, cfg, Initial, def) == Ok(Reduced(def, WithInc()))
  {
    DefineRegisters(fuel, cfg, Initial, "Inc", "t", App("Sum", [Name("t"), Const(1.0)]), []);
    assert [Name("Inc"), Name("t"), App("Sum", [Name("t"), Const(1.0)])] + [] ==
           [Name("Inc"), Name("t"), App("Sum", [Name("t"), Const(1.0)])];
  }

  lemma ProgramArguments(fuel: nat, cfg: Config)
    requires fuel >= 1
    ensures var def := App(DelayedAction, [Name("Inc"), Name("t"), App("Sum", [Name("t"), Const(1.0)])]);
      EvalArgs(fuel, cfg, Initial, [def, App("Inc", [Const(5.0)])]) == Ok(ReducedArgs([def, Const(6.0)], WithInc()))
  {
    var def := App(DelayedAction, [Name("Inc"), Name("t"), App("Sum", [Name("t"), Const(1.0)])]);
    DefineIncrement(fuel, cfg);
    IncrementCall(fuel, cfg);
    EvalArgsPair(fuel, cfg, Initial, def, App("Inc", [Const(5.0)]));
  }

  /** A whole program: List[Delayed[Inc, t, Sum[t, 1]], Inc[5]] defines Inc,
      calls it, and answers 6, leaving Inc defined. */
  lemma DefineThenCall(fuel: nat, cfg: Config)
    requires fuel >= 1
    ensures Eval(fuel, cfg, Initial,
                 App("List", [App(DelayedAction, [Name("Inc"), Name("t"), App("Sum", [Name("t"), Const(1.0)])]),
                              App("Inc", [Const(5.0)])]))
            == Ok(Reduced(Const(6.0), WithInc()))
  {
    var def := App(DelayedAction, [Name("Inc"), Name("t"), App("Sum", [Name("t"), Const(1.0)])]);
    ProgramArguments(fuel, cfg);
    assert Dispatch(fuel, cfg, WithInc(), "List", [def, Const(6.0)]) == Ok(Reduced(Const(6.0), WithInc()));
  }

  /** The session after Set[x, 3]. */
  function WithX(): (st: State)
    ensures Grows(Initial, st) && st.scope == map["x" := Const(3.0)]
  {
    Initial.(scope := map["x" := Const(3.0)])
  }

  lemma AssignStep(fuel: nat, cfg: Config)
    ensures Resolve(fuel, cfg, Initial, App(SetAction, [Name("x"), Const(3.0)])) == Ok(Reduced(Name("x"), WithX()))
  {
    SetBindsTarget(fuel, cfg, Initial, "x", Const(3.0), []);
    assert [Name("x"), Const(3.0)] + [] == [Name("x"), Const(3.0)];
    assert Initial.scope["x" := Const(3.0)] == WithX().scope;
  }

  lemma SumStep(fuel: nat, cfg: Config)
    ensures Resolve(fuel, cfg, WithX(), App("Sum", [Name("x"), Const(4.0)])) == Ok(Reduced(Const(7.0), WithX()))
  {
    var st := WithX();
    NativeCall(fuel, cfg, st, "Sum", SumOp, [Name("x"), Const(4.0)]);
    assert Leaves(st.scope, [Name("x"), Const(4.0)]) == [Const(3.0), Const(4.0)];
    SumOfTwoConstants("Sum", 3.0, 4.0);
  }

  /** Assignment feeds later statements: List[Set[x, 3], Sum[x, 4]] answers 7
      and leaves x bound to 3. */
  lemma AssignThenSum(fuel: nat, cfg: Config)
    ensures Eval(fuel, cfg, Initial,
                 App("List", [App(SetAction, [Name("x"), Const(3.0)]), App("Sum", [Name("x"), Const(4.0)])]))
            == Ok(Reduced(Const(7.0), WithX()))
  {
    var assign := App(SetAction, [Name("x"), Const(3.0)]);
    var sum := App("Sum", [Name("x"), Const(4.0)]);
    AssignStep(fuel, cfg);
    SumStep(fuel, cfg);
    EvalArgsPair(fuel, cfg, Initial, assign, sum);
    assert Dispatch(fuel, cfg, WithX(), "List", [Name("x"), Const(7.0)]) == Ok(Reduced(Const(7.0), WithX()));
  }
}
