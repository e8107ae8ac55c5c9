/** The evaluator: special forms, post-order reduction, dispatch to the
    built-in table or to delayed rules, with the session state threaded
    explicitly instead of held in static fields. */
module Engine {
  import opened Outcomes
  import opened Terms
  import opened Builtins
  import opened Substitution

  /** What an operator name dispatches to: a built-in handler, or the
      generic handler that expands a delayed rule. */
  datatype Handler = Native(op: Builtin) | DelayedCall

  /** A delayed definition: its parameter name and its body application. */
  datatype Rule = Rule(param: string, action: string, args: seq<Symbol>) {
    function Body(): (b: Symbol)
      ensures b.App? && b.action == action && b.args == args
    {
      App(action, args)
    }
  }

  /** The session state: the single global scope, the operator registry and
      the rule table. */
  datatype State = State(scope: map<string, Symbol>, registry: map<string, Handler>, rules: map<string, Rule>)

  /** What assignment does to a name that is already bound. The scope class
      is not part of this model, so both readings are kept: overwrite the
      binding, or fail as a dictionary insertion of a present key does. */
  datatype Rebind = Overwrite | RejectRebind

  /** The parts of the environment the evaluator cannot compute itself. */
  datatype Config = Config(rebind: Rebind, pow: PowOracle)

  datatype Reduced = Reduced(sym: Symbol, st: State)
  datatype ReducedArgs = ReducedArgs(syms: seq<Symbol>, st: State)

  /** The built-in operator table the session starts with. */
  const BuiltinTable: map<string, Handler> := map[
    "Sum" := Native(SumOp),
    "Sub" := Native(SubOp),
    "Mul" := Native(MulOp),
    "Div" := Native(DivOp),
    "Rem" := Native(RemOp),
    "Divide" := Native(DivideOp),
    "Pow" := Native(PowOp),
    "List" := Native(ListOp),
    "Equal" := Native(EqualOp),
    "Greater" := Native(GreaterOp),
    "GreaterOrEqual" := Native(GreaterOrEqualOp),
    "Less" := Native(LessOp),
    "LessOrEqual" := Native(LessOrEqualOp)
  ]

  const Initial: State := State(map[], BuiltinTable, map[])

  /** Registry and rule table agree: a name dispatches to the delayed-call
      handler exactly when a rule is stored for it. */
  predicate WellFormed(st: State) {
    && (forall n :: n in st.rules ==> n in st.registry && st.registry[n] == DelayedCall)
    && (forall n :: n in st.registry && st.registry[n] == DelayedCall ==> n in st.rules)
  }

  /** The state only grows: no binding disappears, and no registry entry or
      rule is ever removed or changed. */
  predicate Grows(st: State, st': State) {
    && st.scope.Keys <= st'.scope.Keys
    && (forall n :: n in st.registry ==> n in st'.registry && st'.registry[n] == st.registry[n])
    && (forall n :: n in st.rules ==> n in st'.rules && st'.rules[n] == st.rules[n])
  }

  /** A name resolves to its binding, or stays free. */
  function Lookup(scope: map<string, Symbol>, n: string): (r: Symbol)
    ensures n in scope ==> r == scope[n]
    ensures n !in scope ==> r == Name(n)
  {
    if n in scope then scope[n] else Name(n)
  }

  /** Stores a binding under the configured rebinding policy. */
  function Bind(policy: Rebind, scope: map<string, Symbol>, n: string, v: Symbol): (r: Result<map<string, Symbol>>)
    ensures r.Ok? ==> r.value == scope[n := v]
    ensures r.Err? <==> policy == RejectRebind && n in scope
    ensures r.Err? ==> r.error == DuplicateBinding
  {
    if policy == RejectRebind && n in scope then Err(DuplicateBinding) else Ok(scope[n := v])
  }

  /** Evaluates an application (the source's entry point). */
  function Eval(fuel: nat, cfg: Config, st: State, e: Symbol): (r: Result<Reduced>)
    requires e.App?
    ensures r.Ok? && e.action == SetAction ==> |e.args| >= 2 && e.args[0].Name? && r.value.sym == e.args[0]
    ensures r.Ok? && e.action == DelayedAction ==> r.value.sym == e
    decreases fuel, Size(e), 3
  {
    if e.action == SetAction then EvalSet(fuel, cfg, st, e)
    else if e.action == DelayedAction then Define(st, e)
    else
      var ra :- EvalArgs(fuel, cfg, st, e.args);
      Dispatch(fuel, cfg, ra.st, e.action, ra.syms)
  }

  /** One argument of the general path: an application is evaluated, a name
      is resolved through the global scope, a constant passes through. */
  function Resolve(fuel: nat, cfg: Config, st: State, a: Symbol): (r: Result<Reduced>)
    ensures !a.App? ==> r == Ok(Reduced(if a.Name? then Lookup(st.scope, a.id) else a, st))
    decreases fuel, Size(a), 4
  {
    match a
    case App(_, _) => Eval(fuel, cfg, st, a)
    case Name(n) => Ok(Reduced(Lookup(st.scope, n), st))
    case Const(_) => Ok(Reduced(a, st))
  }

  /** Arguments are reduced left to right, each seeing the state the
      previous ones left behind. */
  function EvalArgs(fuel: nat, cfg: Config, st: State, args: seq<Symbol>): (r: Result<ReducedArgs>)
    ensures r.Ok? ==> |r.value.syms| == |args|
    ensures r.Ok? ==> forall i :: 0 <= i < |args| && args[i].Const? ==> r.value.syms[i] == args[i]
    decreases fuel, SizeSeq(args), 5
  {
    if args == [] then Ok(ReducedArgs([], st))
    else
      var first :- Resolve(fuel, cfg, st, args[0]);
      var rest :- EvalArgs(fuel, cfg, first.st, args[1..]);
      Ok(ReducedArgs([first.sym] + rest.syms, rest.st))
  }

  /** Assignment: the target must be a name; the value is resolved; the
      binding goes to the global scope; the result is the target itself. */
  function EvalSet(fuel: nat, cfg: Config, st: State, e: Symbol): (r: Result<Reduced>)
    requires e.App?
    ensures r.Ok? ==> |e.args| >= 2 && e.args[0].Name? && r.value.sym == e.args[0] && e.args[0].id in r.value.st.scope
    decreases fuel, Size(e), 2
  {
    var args := e.args;
    if |args| < 2 then Err(ArityError)
    else if !args[0].Name? then Err(InvalidAssignmentTarget)
    else
      SizeOfElement(args, 1);
      var v :- Resolve(fuel, cfg, st, args[1]);
      var scope :- Bind(cfg.rebind, v.st.scope, args[0].id, v.sym);
      Ok(Reduced(args[0], v.st.(scope := scope)))
  }

  /** Delayed definition: registers the name with the delayed-call handler
      and stores (parameter, body) without evaluating anything. */
  function Define(st: State, e: Symbol): (r: Result<Reduced>)
    requires e.App?
    ensures r.Ok? ==> r.value.sym == e && Grows(st, r.value.st)
    ensures r.Ok? && WellFormed(st) ==> WellFormed(r.value.st)
  {
    var args := e.args;
    if |args| < 2 then Err(ArityError)
    else if !args[1].Name? then Err(InvalidCast)
    else if |args| < 3 then Err(ArityError)
    else if !args[2].App? then Err(InvalidCast)
    else if !args[0].Name? then Err(UnsupportedOperatorName)
    else
      var f := args[0].id;
      if f in st.registry || f in st.rules then Err(DuplicateDefinition)
      else
        var rule := Rule(args[1].id, args[2].action, args[2].args);
        Ok(Reduced(e, st.(registry := st.registry[f := DelayedCall], rules := st.rules[f := rule])))
  }

  /** Applies the handler registered for `action` to reduced arguments. A
      delayed rule substitutes its parameter by the first argument and
      evaluates the body; that expansion is what consumes fuel. */
  function Dispatch(fuel: nat, cfg: Config, st: State, action: string, args: seq<Symbol>): (r: Result<Reduced>)
    ensures action !in st.registry ==> r == Err(UndefinedOperator)
    ensures action in st.registry && st.registry[action].Native? ==>
              (r.Ok? <==> Apply(st.registry[action].op, action, args, cfg.pow).Ok?)
    ensures action in st.registry && st.registry[action].Native? && r.Ok? ==>
              r.value.st == st && r.value.sym == Apply(st.registry[action].op, action, args, cfg.pow).value
    ensures action in st.registry && st.registry[action] == DelayedCall ==>
              (action !in st.rules ==> r == Err(MissingRule)) &&
              (action in st.rules && args == [] ==> r == Err(ArityError)) &&
              (action in st.rules && args != [] && fuel == 0 ==> r == Err(OutOfFuel))
    decreases fuel, 0, 0
  {
    if action !in st.registry then Err(UndefinedOperator)
    else match st.registry[action]
      case Native(op) =>
        var s :- Apply(op, action, args, cfg.pow);
        Ok(Reduced(s, st))
      case DelayedCall =>
        if action !in st.rules then Err(MissingRule)
        else if args == [] then Err(ArityError)
        else if fuel == 0 then Err(OutOfFuel)
        else
          var rule := st.rules[action];
          Eval(fuel - 1, cfg, st, Replace(rule.Body(), rule.param, args[0]))
  }
}
