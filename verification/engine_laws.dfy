/** Properties of the evaluator: what assignment and delayed definition do
    to the session state, how a delayed call expands, and what the fuel
    bound does and does not change. */
module EngineLaws {
  import opened Outcomes
  import opened Terms
  import opened Builtins
  import opened Substitution
  import opened Engine

  /** Arguments without nested applications, as the general path reduces
      them: names resolved through the scope, constants unchanged. */
  function Leaves(scope: map<string, Symbol>, args: seq<Symbol>): (r: seq<Symbol>)
    ensures |r| == |args|
  {
    seq(|args|, i requires 0 <= i < |args| => if args[i].Name? then Lookup(scope, args[i].id) else args[i])
  }

  predicate NoApps(args: seq<Symbol>) {
    forall i :: 0 <= i < |args| ==> !args[i].App?
  }

  lemma InitialWellFormed()
    ensures WellFormed(Initial)
    ensures forall n :: n in Initial.registry ==> Initial.registry[n].Native?
  {
  }

  /** Constants and names are reduced without touching the state. */
  lemma {:induction false} EvalArgsLeaves(fuel: nat, cfg: Config, st: State, args: seq<Symbol>)
    requires NoApps(args)
    ensures EvalArgs(fuel, cfg, st, args) == Ok(ReducedArgs(Leaves(st.scope, args), st))
  {
    if args != [] {
      EvalArgsLeaves(fuel, cfg, st, args[1..]);
      assert Leaves(st.scope, args) == [Leaves(st.scope, args)[0]] + Leaves(st.scope, args[1..]);
    }
  }

  /** Two arguments are reduced in order, the second in the state the first
      left behind. */
  lemma EvalArgsPair(fuel: nat, cfg: Config, st: State, a: Symbol, b: Symbol)
    ensures var ra := Resolve(fuel, cfg, st, a);
      ra.Ok? ==>
        var rb := Resolve(fuel, cfg, ra.value.st, b);
        EvalArgs(fuel, cfg, st, [a, b]) ==
          if rb.Err? then Err(rb.error)
          else Ok(ReducedArgs([ra.value.sym, rb.value.sym], rb.value.st))
  {
    var args := [a, b];
    assert args[0] == a && args[1..] == [b] && [b][0] == b && [b][1..] == [];
    var ra := Resolve(fuel, cfg, st, a);
    if ra.Ok? {
      var rb := Resolve(fuel, cfg, ra.value.st, b);
      if rb.Ok? {
        assert EvalArgs(fuel, cfg, rb.value.st, []) == Ok(ReducedArgs([], rb.value.st));
        assert [rb.value.sym] + [] == [rb.value.sym];
        assert [ra.value.sym] + [rb.value.sym] == [ra.value.sym, rb.value.sym];
        assert EvalArgs(fuel, cfg, ra.value.st, [b]) == Ok(ReducedArgs([rb.value.sym], rb.value.st));
      }
    }
  }

  /** A resolved leaf is a fixed point: resolving a constant, or the value of
      a name bound to a constant, yields it again with the state unchanged. */
  lemma ResolveIdempotent(fuel: nat, cfg: Config, st: State, a: Symbol)
    requires a.Const? || (a.Name? && a.id in st.scope && st.scope[a.id].Const?)
    ensures var r := Resolve(fuel, cfg, st, a);
      r.Ok? && r.value.st == st && r.value.sym.Const? &&
      Resolve(fuel, cfg, st, r.value.sym) == r
  {
  }

  // ---------------------------------------------------------------------
  // The session state only grows

  /** A successful step leaves a state that extends the one it started from
      and keeps the registry and the rule table in agreement. */
  predicate Extends(st: State, st': State) {
    Grows(st, st') && (WellFormed(st) ==> WellFormed(st'))
  }

  lemma ExtendsTransitive(st: State, st': State, st'': State)
    requires Extends(st, st') && Extends(st', st'')
    ensures Extends(st, st'')
  {
  }

  lemma {:induction false} EvalExtends(fuel: nat, cfg: Config, st: State, e: Symbol)
    requires e.App?
    ensures var r := Eval(fuel, cfg, st, e); r.Ok? ==> Extends(st, r.value.st)
    decreases fuel, Size(e), 3
  {
    if e.action == SetAction {
      EvalSetExtends(fuel, cfg, st, e);
    } else if e.action != DelayedAction {
      EvalArgsExtends(fuel, cfg, st, e.args);
      var ra := EvalArgs(fuel, cfg, st, e.args);
      if ra.Ok? {
        DispatchExtends(fuel, cfg, ra.value.st, e.action, ra.value.syms);
        var r := Dispatch(fuel, cfg, ra.value.st, e.action, ra.value.syms);
        if r.Ok? {
          ExtendsTransitive(st, ra.value.st, r.value.st);
        }
      }
    }
  }

  lemma {:induction false} ResolveExtends(fuel: nat, cfg: Config, st: State, a: Symbol)
    ensures var r := Resolve(fuel, cfg, st, a); r.Ok? ==> Extends(st, r.value.st)
    decreases fuel, Size(a), 4
  {
    if a.App? {
      EvalExtends(fuel, cfg, st, a);
    }
  }

  lemma {:induction false} EvalArgsExtends(fuel: nat, cfg: Config, st: State, args: seq<Symbol>)
    ensures var r := EvalArgs(fuel, cfg, st, args); r.Ok? ==> Extends(st, r.value.st)
    decreases fuel, SizeSeq(args), 5
  {
    if args != [] {
      ResolveExtends(fuel, cfg, st, args[0]);
      var first := Resolve(fuel, cfg, st, args[0]);
      if first.Ok? {
        EvalArgsExtends(fuel, cfg, first.value.st, args[1..]);
        var rest := EvalArgs(fuel, cfg, first.value.st, args[1..]);
        if rest.Ok? {
          ExtendsTransitive(st, first.value.st, rest.value.st);
        }
      }
    }
  }

  lemma {:induction false} EvalSetExtends(fuel: nat, cfg: Config, st: State, e: Symbol)
    requires e.App?
    ensures var r := EvalSet(fuel, cfg, st, e); r.Ok? ==> Extends(st, r.value.st)
    decreases fuel, Size(e), 2
  {
    if |e.args| >= 2 && e.args[0].Name? {
      SizeOfElement(e.args, 1);
      ResolveExtends(fuel, cfg, st, e.args[1]);
    }
  }

  lemma {:induction false} DispatchExtends(fuel: nat, cfg: Config, st: State, action: string, args: seq<Symbol>)
    ensures var r := Dispatch(fuel, cfg, st, action, args); r.Ok? ==> Extends(st, r.value.st)
    decreases fuel, 0, 0
  {
    if action in st.registry && st.registry[action] == DelayedCall && action in st.rules && args != [] && fuel > 0 {
      var rule := st.rules[action];
      EvalExtends(fuel - 1, cfg, st, Replace(rule.Body(), rule.param, args[0]));
    }
  }

  // ---------------------------------------------------------------------
  // Assignment

  /** Set checks its shape before evaluating anything: too few arguments is
      an index error and a non-name target is rejected, whatever the value
      argument would have done. */
  lemma SetRejectsMalformed(fuel: nat, cfg: Config, st: State, args: seq<Symbol>)
    ensures |args| < 2 ==> Eval(fuel, cfg, st, App(SetAction, args)) == Err(ArityError)
    ensures |args| >= 2 && !args[0].Name? ==>
              Eval(fuel, cfg, st, App(SetAction, args)) == Err(InvalidAssignmentTarget)
  {
  }

  /** Set succeeds exactly when its value argument resolves and the
      rebinding policy admits the target: it overwrites, or the target is
      still unbound once the value is resolved. It then answers the target
      name, binds the target to the resolved value, and changes nothing else
      beyond what resolving the value changed. A failed resolution is passed
      on; a refused rebinding is a duplicate binding. Arguments past the
      second are ignored. */
  lemma SetBindsTarget(fuel: nat, cfg: Config, st: State, x: string, value: Symbol, rest: seq<Symbol>)
    ensures var r := Eval(fuel, cfg, st, App(SetAction, [Name(x), value] + rest));
      var v := Resolve(fuel, cfg, st, value);
      && (r.Ok? <==> v.Ok? && (cfg.rebind == Overwrite || x !in v.value.st.scope))
      && (r.Err? ==> r == Err(if v.Err? then v.error else DuplicateBinding))
      && (r.Ok? ==>
            && r.value.sym == Name(x)
            && x in r.value.st.scope && r.value.st.scope[x] == v.value.sym
            && r.value.st == v.value.st.(scope := v.value.st.scope[x := v.value.sym]))
  {
    var args := [Name(x), value] + rest;
    assert args[0] == Name(x) && args[1] == value;
  }

  /** Under the rejecting policy, assigning to a name that is already bound
      always fails: with a duplicate binding once the value resolves, since
      resolving never removes a binding, and with the value's own error
      otherwise. */
  lemma SetRejectsRebind(fuel: nat, cfg: Config, st: State, x: string, value: Symbol, rest: seq<Symbol>)
    requires cfg.rebind == RejectRebind && x in st.scope
    ensures var v := Resolve(fuel, cfg, st, value);
      Eval(fuel, cfg, st, App(SetAction, [Name(x), value] + rest))
        == Err(if v.Err? then v.error else DuplicateBinding)
  {
    SetBindsTarget(fuel, cfg, st, x, value, rest);
    ResolveExtends(fuel, cfg, st, value);
  }

  /** Assignment then lookup: in a block that assigns a constant to `x` and
      then mentions `x`, the mention reads the assigned constant, and the
      assignment is left in the global scope. The policy must admit the
      assignment: it overwrites, or `x` is not bound yet. */
  lemma AssignThenRead(fuel: nat, cfg: Config, st: State, x: string, c: real)
    requires cfg.rebind == Overwrite || x !in st.scope
    requires "List" in st.registry && st.registry["List"] == Native(ListOp)
    ensures Eval(fuel, cfg, st, App("List", [App(SetAction, [Name(x), Const(c)]), Name(x)]))
            == Ok(Reduced(Const(c), st.(scope := st.scope[x := Const(c)])))
  {
    var assign := App(SetAction, [Name(x), Const(c)]);
    var st1 := st.(scope := st.scope[x := Const(c)]);
    assert Eval(fuel, cfg, st, assign) == Ok(Reduced(Name(x), st1));
    assert Resolve(fuel, cfg, st, assign) == Ok(Reduced(Name(x), st1));
    EvalArgsLeaves(fuel, cfg, st1, [Name(x)]);
    assert Leaves(st1.scope, [Name(x)]) == [Const(c)];
    assert EvalArgs(fuel, cfg, st, [assign, Name(x)]) == Ok(ReducedArgs([Name(x), Const(c)], st1)) by {
      var args := [assign, Name(x)];
      assert args[0] == assign && args[1..] == [Name(x)];
      assert EvalArgs(fuel, cfg, st1, args[1..]) == Ok(ReducedArgs([Const(c)], st1));
      assert [Name(x)] + [Const(c)] == [Name(x), Const(c)];
    }
  }

  // ---------------------------------------------------------------------
  // Delayed definition

  /** A well-shaped delayed definition either conflicts with a registered
      operator or registers the delayed-call handler and stores the rule,
      answering the definition itself with its body unevaluated. */
  lemma DefineRegisters(fuel: nat, cfg: Config, st: State, f: string, p: string, body: Symbol, rest: seq<Symbol>)
    requires body.App?
    ensures var e := App(DelayedAction, [Name(f), Name(p), body] + rest);
      Eval(fuel, cfg, st, e) ==
        if f in st.registry || f in st.rules then Err(DuplicateDefinition)
        else Ok(Reduced(e, st.(registry := st.registry[f := DelayedCall],
                               rules := st.rules[f := Rule(p, body.action, body.args)])))
  {
    var args := [Name(f), Name(p), body] + rest;
    assert args[0] == Name(f) && args[1] == Name(p) && args[2] == body;
  }

  /** A delayed definition whose parameter is not a name, or whose body is
      not an application, is a cast failure. */
  lemma DefineRejectsMalformed(fuel: nat, cfg: Config, st: State, args: seq<Symbol>)
    ensures |args| < 2 ==> Eval(fuel, cfg, st, App(DelayedAction, args)) == Err(ArityError)
    ensures |args| >= 2 && !args[1].Name? ==> Eval(fuel, cfg, st, App(DelayedAction, args)) == Err(InvalidCast)
    ensures |args| >= 3 && args[1].Name? && !args[2].App? ==>
              Eval(fuel, cfg, st, App(DelayedAction, args)) == Err(InvalidCast)
  {
  }

  /** Definitions are permanent: once a name is defined, every later state
      still holds its rule, and defining the name again fails. The built-in
      names can never be defined in a session that started from the
      built-in table. */
  lemma DefinitionIsPermanent(fuel: nat, cfg: Config, st: State, e: Symbol, later: State, e': Symbol)
    requires e.App? && e.action == DelayedAction
    requires Eval(fuel, cfg, st, e).Ok?
    requires Grows(Eval(fuel, cfg, st, e).value.st, later)
    requires e'.App? && e'.action == DelayedAction && |e'.args| >= 3
    requires e'.args[0] == e.args[0] && e'.args[1].Name? && e'.args[2].App?
    ensures var f := e.args[0].id;
      && f in later.rules && later.rules[f] == Rule(e.args[1].id, e.args[2].action, e.args[2].args)
      && Eval(fuel, cfg, later, e') == Err(DuplicateDefinition)
  {
  }

  lemma BuiltinsCannotBeRedefined(fuel: nat, cfg: Config, st: State, args: seq<Symbol>)
    requires Grows(Initial, st)
    requires |args| >= 3 && args[0].Name? && args[0].id in BuiltinTable && args[1].Name? && args[2].App?
    ensures Eval(fuel, cfg, st, App(DelayedAction, args)) == Err(DuplicateDefinition)
  {
    assert args[0].id in Initial.registry;
  }

  // ---------------------------------------------------------------------
  // General application and delayed calls

  /** An action with no dispatch entry fails once its arguments are reduced,
      unless reducing them defined it. */
  lemma UndefinedOperatorFails(fuel: nat, cfg: Config, st: State, f: string, args: seq<Symbol>)
    requires f != SetAction && f != DelayedAction
    ensures var ra := EvalArgs(fuel, cfg, st, args);
      ra.Ok? && f !in ra.value.st.registry ==> Eval(fuel, cfg, st, App(f, args)) == Err(UndefinedOperator)
  {
  }

  /** Leaf arguments define nothing along the way, so an action absent from
      the registry fails. */
  lemma UndefinedOnLeaves(fuel: nat, cfg: Config, st: State, f: string, args: seq<Symbol>)
    requires f != SetAction && f != DelayedAction && f !in st.registry && NoApps(args)
    ensures Eval(fuel, cfg, st, App(f, args)) == Err(UndefinedOperator)
  {
    EvalArgsLeaves(fuel, cfg, st, args);
  }

  /** A built-in receives the reduced arguments and the state is unchanged. */
  lemma NativeCall(fuel: nat, cfg: Config, st: State, f: string, op: Builtin, args: seq<Symbol>)
    requires f != SetAction && f != DelayedAction && f in st.registry && st.registry[f] == Native(op)
    requires NoApps(args)
    ensures Eval(fuel, cfg, st, App(f, args)) ==
            match Apply(op, f, Leaves(st.scope, args), cfg.pow)
            case Ok(s) => Ok(Reduced(s, st))
            case Err(err) => Err(err)
  {
    EvalArgsLeaves(fuel, cfg, st, args);
  }

  /** A call of a registered delayed rule reduces its arguments, then
      evaluates the rule's body, as stored after that reduction, with the
      parameter replaced by the first reduced argument. Arguments past the
      first are reduced for their effects and otherwise ignored. */
  lemma DelayedCallReduces(fuel: nat, cfg: Config, st: State, f: string, args: seq<Symbol>)
    requires f != SetAction && f != DelayedAction
    ensures var ra := EvalArgs(fuel, cfg, st, args);
      ra.Ok? && f in ra.value.st.registry && ra.value.st.registry[f] == DelayedCall && f in ra.value.st.rules ==>
        var rule := ra.value.st.rules[f];
        Eval(fuel, cfg, st, App(f, args)) ==
          if args == [] then Err(ArityError)
          else if fuel == 0 then Err(OutOfFuel)
          else Eval(fuel - 1, cfg, ra.value.st, Replace(rule.Body(), rule.param, ra.value.syms[0]))
  {
  }

  /** With leaf arguments, a delayed call evaluates the rule's body in the
      same state, the parameter replaced by the first argument as looked up. */
  lemma DelayedCallExpands(fuel: nat, cfg: Config, st: State, f: string, args: seq<Symbol>)
    requires f != SetAction && f != DelayedAction
    requires f in st.registry && st.registry[f] == DelayedCall && f in st.rules
    requires NoApps(args)
    ensures var rule := st.rules[f];
      Eval(fuel, cfg, st, App(f, args)) ==
        if args == [] then Err(ArityError)
        else if fuel == 0 then Err(OutOfFuel)
        else Eval(fuel - 1, cfg, st, Replace(rule.Body(), rule.param, Leaves(st.scope, args)[0]))
  {
    EvalArgsLeaves(fuel, cfg, st, args);
  }

  /** Only the first argument of a delayed call matters. */
  lemma DelayedCallUsesFirstArgument(fuel: nat, cfg: Config, st: State, f: string, args: seq<Symbol>, args': seq<Symbol>)
    requires f != SetAction && f != DelayedAction
    requires f in st.registry && st.registry[f] == DelayedCall && f in st.rules
    requires NoApps(args) && NoApps(args') && args != [] && args' != [] && args[0] == args'[0]
    ensures Eval(fuel, cfg, st, App(f, args)) == Eval(fuel, cfg, st, App(f, args'))
  {
    DelayedCallExpands(fuel, cfg, st, f, args);
    DelayedCallExpands(fuel, cfg, st, f, args');
  }

  /** A rule whose body calls itself on its own parameter never finishes:
      whatever the fuel, the evaluation runs out of it. */
  lemma {:induction false} SelfCallRunsOutOfFuel(fuel: nat, cfg: Config, st: State, f: string, p: string, c: real)
    requires f != SetAction && f != DelayedAction
    requires f in st.registry && st.registry[f] == DelayedCall
    requires f in st.rules && st.rules[f] == Rule(p, f, [Name(p)])
    ensures Eval(fuel, cfg, st, App(f, [Const(c)])) == Err(OutOfFuel)
  {
    DelayedCallExpands(fuel, cfg, st, f, [Const(c)]);
    if fuel > 0 {
      var body := Replace(App(f, [Name(p)]), p, Const(c));
      assert body.args[0] == Const(c);
      assert body == App(f, [Const(c)]);
      SelfCallRunsOutOfFuel(fuel - 1, cfg, st, f, p, c);
    }
  }

  // ---------------------------------------------------------------------
  // Fuel

  /** Fuel only bounds the evaluation: an answer reached without running out
      is the answer with any larger budget. */
  lemma {:induction false} EvalFuelMonotone(fuel: nat, more: nat, cfg: Config, st: State, e: Symbol)
    requires e.App? && fuel <= more
    requires Eval(fuel, cfg, st, e) != Err(OutOfFuel)
    ensures Eval(more, cfg, st, e) == Eval(fuel, cfg, st, e)
    decreases fuel, Size(e), 3
  {
    if e.action == SetAction {
      EvalSetFuelMonotone(fuel, more, cfg, st, e);
    } else if e.action != DelayedAction {
      EvalArgsFuelMonotone(fuel, more, cfg, st, e.args);
      var ra := EvalArgs(fuel, cfg, st, e.args);
      if ra.Ok? {
        DispatchFuelMonotone(fuel, more, cfg, ra.value.st, e.action, ra.value.syms);
      }
    }
  }

  lemma {:induction false} ResolveFuelMonotone(fuel: nat, more: nat, cfg: Config, st: State, a: Symbol)
    requires fuel <= more
    requires Resolve(fuel, cfg, st, a) != Err(OutOfFuel)
    ensures Resolve(more, cfg, st, a) == Resolve(fuel, cfg, st, a)
    decreases fuel, Size(a), 4
  {
    if a.App? {
      EvalFuelMonotone(fuel, more, cfg, st, a);
    }
  }

  lemma {:induction false} EvalArgsFuelMonotone(fuel: nat, more: nat, cfg: Config, st: State, args: seq<Symbol>)
    requires fuel <= more
    requires EvalArgs(fuel, cfg, st, args) != Err(OutOfFuel)
    ensures EvalArgs(more, cfg, st, args) == EvalArgs(fuel, cfg, st, args)
    decreases fuel, SizeSeq(args), 5
  {
    if args != [] {
      ResolveFuelMonotone(fuel, more, cfg, st, args[0]);
      var first := Resolve(fuel, cfg, st, args[0]);
      if first.Ok? {
        EvalArgsFuelMonotone(fuel, more, cfg, first.value.st, args[1..]);
      }
    }
  }

  lemma {:induction false} EvalSetFuelMonotone(fuel: nat, more: nat, cfg: Config, st: State, e: Symbol)
    requires e.App? && fuel <= more
    requires EvalSet(fuel, cfg, st, e) != Err(OutOfFuel)
    ensures EvalSet(more, cfg, st, e) == EvalSet(fuel, cfg, st, e)
    decreases fuel, Size(e), 2
  {
    if |e.args| >= 2 && e.args[0].Name? {
      SizeOfElement(e.args, 1);
      ResolveFuelMonotone(fuel, more, cfg, st, e.args[1]);
    }
  }

  lemma {:induction false} DispatchFuelMonotone(fuel: nat, more: nat, cfg: Config, st: State, action: string, args: seq<Symbol>)
    requires fuel <= more
    requires Dispatch(fuel, cfg, st, action, args) != Err(OutOfFuel)
    ensures Dispatch(more, cfg, st, action, args) == Dispatch(fuel, cfg, st, action, args)
    decreases fuel, 0, 0
  {
    if action in st.registry && st.registry[action] == DelayedCall && action in st.rules && args != [] {
      var rule := st.rules[action];
      EvalFuelMonotone(fuel - 1, more - 1, cfg, st, Replace(rule.Body(), rule.param, args[0]));
    }
  }
}
