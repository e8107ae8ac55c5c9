# A verified model of a symbolic term-rewriting engine

This project models the evaluator of a small symbolic-computation system. A
program is a tree of symbols:

- a decimal constant;
- a name (a string symbol);
- an expression, which applies an action name to a list of argument symbols.

Evaluating an expression works as follows.

1. Two special forms receive their arguments unevaluated:
   - `Set[x, v]` binds `x` in the single global scope.
   - `Delayed[f, p, body]` registers a new operator `f` with one parameter `p`.
2. Every other expression is reduced in post-order:
   - nested expressions are evaluated;
   - names are looked up in the global scope, and an unbound name stays as it is;
   - constants pass through.
3. The reduced expression is dispatched to a handler from the operator table.

The table holds these handlers:

- the built-ins:
  - `Sum` and `Mul` accumulate their constant arguments and keep their name arguments;
  - `Sub`, `Div`, `Rem`, `Divide` and `Pow` fold two constants, and otherwise stay symbolic;
  - the comparisons answer `True`/`False`;
  - `Equal` compares structurally;
  - `List` answers its last argument;
- the generic handler for delayed rules. It substitutes the first argument for the rule's parameter in the rule's body and evaluates the result.

## How the model is organised

- `outcomes.dfy` (`Outcomes`): the error kinds, including the model's own `OutOfFuel` (standing for the source's unbounded recursion) and `UnsupportedOperatorName` (a case the source never raises), and `Result`/`Option`.
- `terms.dfy` (`Terms`): the `Symbol` datatype, the special-form names, and the free-occurrence predicate `Free`, which does not look inside nested `Set` children.
- `substitution.dfy` (`Substitution`): single-variable substitution and its laws.
- `arith.dfy` (`Arith`): the numeric folds. Constants are exact decimals, modelled as `real`. `Div` truncates toward zero and then converts to a 32-bit integer. `Rem` takes the sign of the dividend.
- `builtins.dfy` (`Builtins`): the built-in handlers, and a reference meaning for `Sum`/`Mul`. That meaning is the sum or product of the arguments under an assignment of numbers to names.
- `engine.dfy` (`Engine`): the session state and the evaluator.
  - The source keeps the state in static fields. Here it is an explicit `State` record: the global scope, the operator registry, and the rule table.
  - `Eval`, `Resolve`, `EvalArgs`, `EvalSet` and `Dispatch` are mutually recursive.
  - They take a `fuel` budget, because a delayed rule can call itself forever. Only the expansion of a delayed call consumes fuel. Running out is the error `OutOfFuel`.
- `engine_laws.dfy` (`EngineLaws`): what assignment and definition do to the state, how delayed calls expand, and what fuel does.
- `scenarios.dfy` (`Scenarios`): complete evaluations from the initial state.

Two points the source leaves open are explicit parameters of the model, in `Engine.Config`:

- `rebind`: what `Set` does to an already-bound name. The scope class is not part of this model. With `Overwrite`, the binding is replaced. With `RejectRebind`, the call fails, as a dictionary insertion of a present key does.
- `pow`: power goes through binary floating point. It is an oracle that may fail.

## Model

| member | source | states |
|---|---|---|
| Substitution.Replace | SymbolicComputation/BuildInFunctions.cs:250-282 | an application keeps its action and its number of arguments under substitution |
| Substitution.ReplaceShape | SymbolicComputation/BuildInFunctions.cs:250-282 | argument by argument: the parameter name becomes the value; a non-`Set` application is replaced recursively; a nested `Set`, a constant and any other name are copied verbatim |
| Substitution.ReplaceAbsent | SymbolicComputation/BuildInFunctions.cs:253-276 | when the parameter occurs nowhere outside nested `Set` children, substitution returns its input unchanged |
| Substitution.ReplaceEliminates | SymbolicComputation/BuildInFunctions.cs:250-282 | when the value does not mention the parameter, no occurrence of the parameter outside nested `Set` children survives |
| Substitution.ReplaceIdempotent | SymbolicComputation/BuildInFunctions.cs:250-282 | substituting twice with such a value is the same as substituting once |
| Substitution.ReplaceRenameRoundTrip | SymbolicComputation/BuildInFunctions.cs:250-282 | renaming the parameter to an unused name and back restores the body exactly |
| Arith.Trunc | SymbolicComputation/BuildInFunctions.cs:180 | the integer cast rounds toward zero: the result lies within one of the quotient, on the zero side |
| Arith.SubFold | SymbolicComputation/BuildInFunctions.cs:146-149 | Sub folds to the difference: adding the subtrahend back gives the minuend |
| Arith.DivideFold | SymbolicComputation/BuildInFunctions.cs:173-176 | Divide fails exactly on a zero divisor; otherwise the quotient times the divisor gives the dividend |
| Arith.DivFold | SymbolicComputation/BuildInFunctions.cs:178-181 | Div fails on a zero divisor; it overflows exactly when the truncated quotient is outside the 32-bit range; otherwise it yields that quotient truncated toward zero, an integer |
| Arith.RemFold | SymbolicComputation/BuildInFunctions.cs:183-186 | Rem fails exactly on a zero divisor |
| Arith.RemProperties | SymbolicComputation/BuildInFunctions.cs:183-186 | the remainder recombines with the truncated quotient to the dividend, is smaller in magnitude than the divisor, and is zero or has the dividend's sign |
| Arith.DivAgreesOnNaturals | SymbolicComputation/BuildInFunctions.cs:178-181 | on non-negative integers in range, Div agrees with ordinary integer division |
| Arith.NegativeDividend | SymbolicComputation/BuildInFunctions.cs:178-186 | -7 Div 2 is -3 and -7 Rem 2 is -1: the quotient is truncated toward zero and the remainder takes the dividend's sign |
| Builtins.MathEval | SymbolicComputation/BuildInFunctions.cs:37-48 | fewer than two arguments is an index error; the result is a constant exactly when the first two arguments are constants and the fold succeeds, and it is then the fold's value; otherwise the reduced expression is returned unchanged or the fold's error is raised |
| Builtins.LogicEval | SymbolicComputation/BuildInFunctions.cs:50-60 | fails exactly when there are fewer than two arguments; always answers `True` or `False`; `False` whenever an operand is not a constant; on constants, `True` exactly when the comparison holds |
| Builtins.ComparisonConverse | SymbolicComputation/BuildInFunctions.cs:104-122 | Greater with swapped operands is Less, and GreaterOrEqual with swapped operands is LessOrEqual, on every input |
| Builtins.ComparisonComplement | SymbolicComputation/BuildInFunctions.cs:104-122 | on constants, Greater and LessOrEqual answer opposite truth values; otherwise both answer `False` |
| Builtins.Equal | SymbolicComputation/BuildInFunctions.cs:99-102 | fails exactly on fewer than two arguments; `True` exactly when the first two are structurally equal, `False` exactly when they differ |
| Builtins.EqualSymmetric | SymbolicComputation/BuildInFunctions.cs:99-102 | equality is symmetric, and reflexive even on non-constants |
| Builtins.List | SymbolicComputation/BuildInFunctions.cs:193-196 | fails exactly on no arguments; otherwise answers the last argument |
| Builtins.NamesOfMembers | SymbolicComputation/BuildInFunctions.cs:126-127 | the kept names are exactly the name arguments |
| Builtins.NamesOfAppend | SymbolicComputation/BuildInFunctions.cs:126-127 | the names are kept in their original order: the names of a concatenation are the names of the first part followed by those of the second |
| Builtins.SumFold | SymbolicComputation/BuildInFunctions.cs:124-144 | a constant exactly when no argument is a name, and then the sum of the constants; otherwise an application of the same action to the names, preceded by the sum exactly when the sum is not 0 |
| Builtins.SumPreservesValue | SymbolicComputation/BuildInFunctions.cs:124-144 | on arguments without nested applications, the result means the same number as the input under every assignment to the names |
| Builtins.SumIdempotent | SymbolicComputation/BuildInFunctions.cs:124-144 | a symbolic Sum result is a normal form: summing it again changes nothing |
| Builtins.SumDropsApplications | SymbolicComputation/BuildInFunctions.cs:126-128 | a nested application is silently dropped: Sum[2, Sub[x, 1]] folds to 2 |
| Builtins.SumOfTwoConstants | SymbolicComputation/BuildInFunctions.cs:128-132 | two constants fold to their sum |
| Builtins.SumConstantAndName | SymbolicComputation/BuildInFunctions.cs:130-143 | a constant and a name stay symbolic, with the constant dropped when it is 0 |
| Builtins.MulFold | SymbolicComputation/BuildInFunctions.cs:151-171 | the corrected Mul: like SumFold, with the product from 1, and the constant dropped exactly when the product is 1 |
| Builtins.MulPreservesValue | SymbolicComputation/BuildInFunctions.cs:151-171 | on arguments without nested applications, the corrected Mul means the same number as its input under every assignment |
| Builtins.MulIdempotent | SymbolicComputation/BuildInFunctions.cs:151-171 | a symbolic corrected-Mul result is a normal form |
| Builtins.MulFoldAsWritten | SymbolicComputation/BuildInFunctions.cs:151-171 | Mul as written, the one the evaluator uses: a constant exactly when no argument is a name, and then the product of the constants; otherwise an application of the same action to the names, preceded by the product, which is dropped exactly when it is 0 |
| Builtins.MulAsWrittenDropsZero | SymbolicComputation/BuildInFunctions.cs:162-165 | Mul as written turns Mul[0, x] into Mul[x], which means 1 rather than 0 when x is 1, and a second pass yields Mul[1, x] |
| Engine.Lookup | SymbolicComputation/BuildInFunctions.cs:226-229 | a bound name resolves to its binding; an unbound name resolves to itself |
| Engine.Bind | SymbolicComputation/BuildInFunctions.cs:218 | the binding is stored; it fails, with DuplicateBinding, exactly when the rejecting policy meets a bound name |
| Engine.Resolve | SymbolicComputation/BuildInFunctions.cs:76-89 | a name argument is looked up and a constant passes through, both without touching the state |
| Engine.EvalArgs | SymbolicComputation/BuildInFunctions.cs:75-92 | the arguments are reduced one for one, and constant arguments come out unchanged |
| Engine.Eval | SymbolicComputation/BuildInFunctions.cs:62-97 | a successful assignment has at least two arguments, a name target, and answers that target; a successful definition answers its own input |
| Engine.Dispatch | SymbolicComputation/BuildInFunctions.cs:242-248 | the handler lookup of line 94 and the delayed-call handler: an action with no handler fails as undefined; a built-in succeeds exactly when its handler does, answers the handler's result and leaves the state as it was; a delayed call fails without a stored rule, without arguments, or without fuel |
| Builtins.Apply | SymbolicComputation/BuildInFunctions.cs:16-32 | the table maps each built-in to its handler: Sum and Mul never fail; List fails exactly on no arguments; every other built-in fails on fewer than two arguments; the only errors are arity, empty block, division by zero and overflow; comparisons and Equal answer True or False; a symbolic result keeps the action, except for List, which answers its last argument |
| Builtins.PowFold | SymbolicComputation/BuildInFunctions.cs:188-191 | power answers the oracle's value, and fails with an overflow exactly when the oracle has no decimal answer |
| Engine.EvalSet | SymbolicComputation/BuildInFunctions.cs:198-224 | a successful assignment answers its name target, and that name is bound afterwards |
| Engine.Define | SymbolicComputation/BuildInFunctions.cs:231-240 | a successful definition answers its input unevaluated, only adds to the state, and keeps registry and rule table in agreement |
| EngineLaws.InitialWellFormed | SymbolicComputation/BuildInFunctions.cs:16-35 | the initial session has no rules, and every registered name is a built-in |
| EngineLaws.EvalArgsLeaves | SymbolicComputation/BuildInFunctions.cs:75-90 | arguments without nested applications reduce to their lookups, with the state unchanged |
| EngineLaws.EvalArgsPair | SymbolicComputation/BuildInFunctions.cs:75-90 | two arguments are reduced left to right, the second in the state the first left behind |
| EngineLaws.ResolveIdempotent | SymbolicComputation/BuildInFunctions.cs:76-89 | resolving a constant, or a name bound to a constant, and then resolving the result again changes nothing |
| EngineLaws.EvalExtends | SymbolicComputation/BuildInFunctions.cs:62-97 | a successful evaluation only adds to the state: no binding is lost, no registry entry or rule changes, and registry and rule table stay in agreement |
| EngineLaws.ResolveExtends | SymbolicComputation/BuildInFunctions.cs:76-89 | the same for one argument |
| EngineLaws.EvalArgsExtends | SymbolicComputation/BuildInFunctions.cs:75-90 | the same for an argument list |
| EngineLaws.EvalSetExtends | SymbolicComputation/BuildInFunctions.cs:198-224 | the same for an assignment |
| EngineLaws.DispatchExtends | SymbolicComputation/BuildInFunctions.cs:94 | the same for a dispatched call |
| EngineLaws.SetRejectsMalformed | SymbolicComputation/BuildInFunctions.cs:198-224 | Set with fewer than two arguments is an index error; a non-name target fails before the value is evaluated |
| EngineLaws.SetBindsTarget | SymbolicComputation/BuildInFunctions.cs:198-221 | under either policy, Set succeeds exactly when its value resolves and the policy admits the target; it then answers the target name, binds the target to the resolved value, and changes nothing else; otherwise it fails with the value's error or a duplicate binding |
| EngineLaws.SetRejectsRebind | SymbolicComputation/BuildInFunctions.cs:198-218 | under the rejecting policy, assigning to an already bound name always fails: with a duplicate binding when the value resolves, with the value's own error otherwise |
| EngineLaws.AssignThenRead | SymbolicComputation/BuildInFunctions.cs:198-229 | when the policy admits the assignment, List[Set[x, c], x] answers c and leaves x bound to c |
| EngineLaws.DefineRegisters | SymbolicComputation/BuildInFunctions.cs:231-240 | a well-shaped definition fails exactly when the name is already registered; otherwise it registers the delayed-call handler, stores (parameter, body), and answers itself |
| EngineLaws.DefineRejectsMalformed | SymbolicComputation/BuildInFunctions.cs:233-235 | missing arguments are index errors; a non-name parameter or a non-application body is a cast error |
| EngineLaws.DefinitionIsPermanent | SymbolicComputation/BuildInFunctions.cs:236-237 | once a definition succeeds, every later state holds its rule, and defining the same name again fails |
| EngineLaws.BuiltinsCannotBeRedefined | SymbolicComputation/BuildInFunctions.cs:236 | in any session grown from the initial table, defining a built-in name fails |
| EngineLaws.UndefinedOperatorFails | SymbolicComputation/BuildInFunctions.cs:94 | an action that has no dispatch entry once its arguments are reduced fails |
| EngineLaws.UndefinedOnLeaves | SymbolicComputation/BuildInFunctions.cs:75-94 | with leaf arguments, an action without a dispatch entry fails |
| EngineLaws.NativeCall | SymbolicComputation/BuildInFunctions.cs:75-96 | a built-in receives the reduced arguments, and the state is unchanged |
| EngineLaws.DelayedCallReduces | SymbolicComputation/BuildInFunctions.cs:242-248 | a call of a delayed rule reduces its arguments; with no argument it is an index error; otherwise it evaluates the stored body with the parameter replaced by the first reduced argument, in the state the reduction left, at the cost of one unit of fuel |
| EngineLaws.DelayedCallExpands | SymbolicComputation/BuildInFunctions.cs:242-248 | the same with leaf arguments, in the unchanged state and with the first argument as looked up |
| EngineLaws.DelayedCallUsesFirstArgument | SymbolicComputation/BuildInFunctions.cs:246 | with leaf arguments, two calls that agree on their first argument give the same result |
| EngineLaws.SelfCallRunsOutOfFuel | SymbolicComputation/BuildInFunctions.cs:242-248 | a rule f[p] := f[p] never finishes: every fuel budget runs out |
| EngineLaws.EvalFuelMonotone | SymbolicComputation/BuildInFunctions.cs:242-248 | an answer reached without running out of fuel is the answer with any larger budget |
| EngineLaws.ResolveFuelMonotone | SymbolicComputation/BuildInFunctions.cs:76-89 | the same for one argument |
| EngineLaws.EvalArgsFuelMonotone | SymbolicComputation/BuildInFunctions.cs:75-90 | the same for an argument list |
| EngineLaws.EvalSetFuelMonotone | SymbolicComputation/BuildInFunctions.cs:198-224 | the same for an assignment |
| EngineLaws.DispatchFuelMonotone | SymbolicComputation/BuildInFunctions.cs:94 | the same for a dispatched call |
| Scenarios.SumOfConstants | SymbolicComputation/BuildInFunctions.cs:124-133 | Sum[2, 3] evaluates to 5 |
| Scenarios.SumWithFreeName | SymbolicComputation/BuildInFunctions.cs:140-143 | Sum[2, x] with x unbound stays Sum[2, x] |
| Scenarios.SumDropsZero | SymbolicComputation/BuildInFunctions.cs:135-138 | Sum[0, x] evaluates to Sum[x] |
| Scenarios.MulDropsZeroFactor | SymbolicComputation/BuildInFunctions.cs:151-171 | the evaluator uses the source's Mul: Mul[0, x] evaluates to Mul[x] |
| Scenarios.BuiltinOnLeaves | SymbolicComputation/BuildInFunctions.cs:75-96 | in the initial session a built-in sees its leaf operands as written |
| Scenarios.GreaterHolds | SymbolicComputation/BuildInFunctions.cs:104-107 | Greater[5, 4] is True |
| Scenarios.GreaterFails | SymbolicComputation/BuildInFunctions.cs:104-107 | Greater[4, 5] is False |
| Scenarios.GreaterOnFreeName | SymbolicComputation/BuildInFunctions.cs:50-60 | Greater[x, 5] with x unbound is False |
| Scenarios.DivNegative | SymbolicComputation/BuildInFunctions.cs:178-181 | Div[-7, 2] is -3 |
| Scenarios.RemNegative | SymbolicComputation/BuildInFunctions.cs:183-186 | Rem[-7, 2] is -1 |
| Scenarios.DivByZero | SymbolicComputation/BuildInFunctions.cs:178-181 | Div[1, 0] raises division by zero |
| Scenarios.WithInc | SymbolicComputation/BuildInFunctions.cs:231-240 | the session after defining Inc is consistent and extends the initial one |
| Scenarios.DefineIncrement | SymbolicComputation/BuildInFunctions.cs:231-240 | Delayed[Inc, t, Sum[t, 1]] answers itself and stores the rule |
| Scenarios.IncrementExpands | SymbolicComputation/BuildInFunctions.cs:242-248 | Inc[5] expands to Sum[5, 1] |
| Scenarios.IncrementNeedsFuel | SymbolicComputation/BuildInFunctions.cs:242-248 | without fuel, Inc[5] runs out |
| Scenarios.IncrementBody | SymbolicComputation/BuildInFunctions.cs:124-144 | Sum[5, 1] evaluates to 6 |
| Scenarios.IncrementCall | SymbolicComputation/BuildInFunctions.cs:242-248 | Inc[5] evaluates to 6 |
| Scenarios.ProgramArguments | SymbolicComputation/BuildInFunctions.cs:75-90 | the two statements of the program reduce to the definition and 6 |
| Scenarios.DefineThenCall | SymbolicComputation/BuildInFunctions.cs:62-97 | List[Delayed[Inc, t, Sum[t, 1]], Inc[5]] evaluates to 6 and leaves Inc defined |
| Scenarios.WithX | SymbolicComputation/BuildInFunctions.cs:218 | the session after Set[x, 3] binds x and extends the initial one |
| Scenarios.AssignStep | SymbolicComputation/BuildInFunctions.cs:198-221 | under either policy, Set[x, 3] in the initial session answers x and binds x to 3 |
| Scenarios.SumStep | SymbolicComputation/BuildInFunctions.cs:75-96 | with x bound to 3, Sum[x, 4] evaluates to 7 |
| Scenarios.AssignThenSum | SymbolicComputation/BuildInFunctions.cs:193-229 | under either policy, List[Set[x, 3], Sum[x, 4]] evaluates to 7 and leaves x bound to 3 |

## Left out

- SymbolicComputation/Program.cs: it is the driver. It reads input files, plots, and writes output files. None of that is part of the evaluator.
- The console logging throughout the engine: it has no effect on results.
- Pow: `Math.Pow` on binary floating point is not modelled. Power is the oracle `Config.pow`, whose failure stands for the failing cast back to decimal.
- Decimal precision: the 28–29 significant digits, the rounding of `Divide`, and the decimal overflow of `Sum`, `Sub`, `Mul`, the quotient of `Divide` and the quotient computed inside `Div` (`Divide[1e28, 0.1]` overflows in the source and not here). Constants are exact reals. The only overflows modelled are the 32-bit cast in `Div` and a failing `Pow` oracle.
- The model classes are not part of this model. Three assumptions follow from that:
  - Symbol equality is taken to be structural.
  - An action is taken to be a plain name.
  - What the scope does when an existing name is re-assigned is left as the explicit `Config.rebind` choice.
- Engine.Define: a `Delayed` whose name argument is not a name is rejected with `UnsupportedOperatorName`. The source would register the symbol's printed form, and the printing code is not part of this model.
- Builtins.FoldConsts: constants are combined from the right. The source folds from the left; on exact numbers both give the same value.
- Termination of the evaluator: it is bounded by fuel, which only delayed-call expansion consumes. `OutOfFuel` has no counterpart in the source, which would recurse until the stack overflows.
- Builtins.SumPreservesValue and Builtins.MulPreservesValue: value preservation is stated only for arguments without nested applications. The source drops nested applications from `Sum` and `Mul`, and `Builtins.SumDropsApplications` shows the loss.
- The mutable static fields of the source become an explicit state that is threaded through the calls and returned.
- An exception that escapes one statement is an error result that ends the evaluation. The partial state changes that the source keeps in its static fields after an exception are not returned.

## Findings

| source | as written | input that shows it | evidently intended | confidence | as-written member | corrected member |
|---|---|---|---|---|---|---|
| SymbolicComputation/BuildInFunctions.cs:162 | `Mul` drops the folded constant when the product equals 0, the additive identity copied from `Sum` | `Mul[0, x]` gives `Mul[x]`, whose value is x, not 0; then `Mul[x]` gives `Mul[1, x]`, so the result is not a normal form either | drop the constant when the product is 1, the multiplicative identity; a product of 0 stays in the result | high (not executed) | Builtins.MulAsWrittenDropsZero | Builtins.MulPreservesValue |

The evaluator dispatches `Mul` to `Builtins.MulFoldAsWritten`, which keeps the source's test, so evaluation behaves as the source does (`Scenarios.MulDropsZeroFactor`). `Builtins.MulFold` is the corrected definition, and its properties are proved on their own.
