/** The built-in operator handlers. Each receives an application whose
    arguments are already fully reduced, given here as its action and its
    argument list, and answers a symbol or a fatal error. */
module Builtins {
  import opened Outcomes
  import opened Terms
  import opened Arith

  datatype Builtin =
    | SumOp | SubOp | MulOp | DivOp | RemOp | DivideOp | PowOp
    | ListOp | EqualOp | GreaterOp | GreaterOrEqualOp | LessOp | LessOrEqualOp

  /** Power goes through binary floating point and back; the model leaves it
      to an oracle, which answers None when the conversion back raises. */
  type PowOracle = (real, real) -> Option<real>

  // ---------------------------------------------------------------------
  // Binary fold family

  /** Folds the first two arguments with `f` when both are constants and
      leaves the application symbolic otherwise. Fewer than two arguments is
      an index error; arguments past the second are ignored by the fold. */
  function MathEval(action: string, args: seq<Symbol>, f: (real, real) -> Result<real>): (r: Result<Symbol>)
    ensures |args| < 2 ==> r == Err(ArityError)
    ensures r.Ok? && r.value.Const? <==>
              |args| >= 2 && args[0].Const? && args[1].Const? && f(args[0].value, args[1].value).Ok?
    ensures r.Ok? && r.value.Const? ==> r.value.value == f(args[0].value, args[1].value).value
    ensures r.Ok? && !r.value.Const? ==> r.value == App(action, args)
    ensures r.Err? && |args| >= 2 ==>
              args[0].Const? && args[1].Const? && r.error == f(args[0].value, args[1].value).error
  {
    if |args| < 2 then Err(ArityError)
    else if args[0].Const? && args[1].Const? then
      var x :- f(args[0].value, args[1].value);
      Ok(Const(x))
    else Ok(App(action, args))
  }

  /** Power of two constants: the oracle's answer, or an overflow error
      when the conversion back to decimal fails. */
  function PowFold(pow: PowOracle, a: real, b: real): (r: Result<real>)
    ensures r.Err? <==> pow(a, b).None?
    ensures r.Err? ==> r.error == Overflow
    ensures r.Ok? ==> Some(r.value) == pow(a, b)
  {
    match pow(a, b)
    case Some(x) => Ok(x)
    case None => Err(Overflow)
  }

  // ---------------------------------------------------------------------
  // Comparison family

  datatype Comparison = Gt | Ge | Lt | Le

  function Holds(c: Comparison, a: real, b: real): bool {
    match c
    case Gt => a > b
    case Ge => a >= b
    case Lt => a < b
    case Le => a <= b
  }

  /** Compares the first two arguments when both are constants; any
      non-constant operand answers False rather than staying symbolic. */
  function LogicEval(c: Comparison, args: seq<Symbol>): (r: Result<Symbol>)
    ensures r.Err? <==> |args| < 2
    ensures r.Err? ==> r.error == ArityError
    ensures r.Ok? ==> (r.value == TrueName || r.value == FalseName)
    ensures r.Ok? && !(args[0].Const? && args[1].Const?) ==> r.value == FalseName
    ensures r.Ok? && args[0].Const? && args[1].Const? ==>
              (r.value == TrueName <==> Holds(c, args[0].value, args[1].value))
  {
    if |args| < 2 then Err(ArityError)
    else if args[0].Const? && args[1].Const? then Ok(Truth(Holds(c, args[0].value, args[1].value)))
    else Ok(FalseName)
  }

  /** Swapping the operands turns Greater into Less and GreaterOrEqual into
      LessOrEqual, on every input. */
  lemma ComparisonConverse(x: Symbol, y: Symbol, rest: seq<Symbol>)
    ensures LogicEval(Gt, [x, y] + rest) == LogicEval(Lt, [y, x] + rest)
    ensures LogicEval(Ge, [x, y] + rest) == LogicEval(Le, [y, x] + rest)
  {
  }

  /** Greater and LessOrEqual are complementary exactly when both operands
      are constants; otherwise both answer False. */
  lemma ComparisonComplement(args: seq<Symbol>)
    requires |args| >= 2
    ensures args[0].Const? && args[1].Const? ==>
              (LogicEval(Gt, args) == Ok(TrueName) <==> LogicEval(Le, args) == Ok(FalseName))
    ensures !(args[0].Const? && args[1].Const?) ==>
              LogicEval(Gt, args) == LogicEval(Le, args) == Ok(FalseName)
  {
  }

  // ---------------------------------------------------------------------
  // Equality and sequencing

  /** Structural equality of the first two arguments, whatever their kind. */
  function Equal(args: seq<Symbol>): (r: Result<Symbol>)
    ensures r.Err? <==> |args| < 2
    ensures r.Err? ==> r.error == ArityError
    ensures r.Ok? ==> (r.value == TrueName <==> args[0] == args[1])
    ensures r.Ok? ==> (r.value == FalseName <==> args[0] != args[1])
  {
    if |args| < 2 then Err(ArityError) else Ok(Truth(args[0] == args[1]))
  }

  /** Equality is symmetric and answers True on identical operands even when
      neither is a constant. */
  lemma EqualSymmetric(x: Symbol, y: Symbol)
    ensures Equal([x, y]) == Equal([y, x])
    ensures Equal([x, x]) == Ok(TrueName)
  {
  }

  /** A block: the value of a sequence of statements is its last one. */
  function List(args: seq<Symbol>): (r: Result<Symbol>)
    ensures r.Err? <==> args == []
    ensures r.Err? ==> r.error == EmptySequence
    ensures r.Ok? ==> r.value in args && r.value == args[|args| - 1]
  {
    if args == [] then Err(EmptySequence) else Ok(args[|args| - 1])
  }

  // ---------------------------------------------------------------------
  // Variadic accumulation family

  /** The name arguments, in their original order. */
  function NamesOf(args: seq<Symbol>): (r: seq<Symbol>)
    ensures |r| <= |args|
    ensures forall i :: 0 <= i < |r| ==> r[i].Name?
  {
    if args == [] then [] else (if args[0].Name? then [args[0]] else []) + NamesOf(args[1..])
  }

  /** NamesOf is an order-preserving filter: it distributes over
      concatenation, so the names of a list are the names of its parts,
      each part's names in place. */
  lemma {:induction false} NamesOfAppend(a: seq<Symbol>, b: seq<Symbol>)
    ensures NamesOf(a + b) == NamesOf(a) + NamesOf(b)
  {
    if a != [] {
      NamesOfAppend(a[1..], b);
      assert (a + b)[1..] == a[1..] + b;
    } else {
      assert a + b == b;
    }
  }

  /** NamesOf keeps exactly the name arguments. */
  lemma {:induction false} NamesOfMembers(args: seq<Symbol>)
    ensures forall x :: x in NamesOf(args) <==> x in args && x.Name?
  {
    if args != [] {
      NamesOfMembers(args[1..]);
      assert args == [args[0]] + args[1..];
    }
  }

  /** A numeric accumulator: Sum uses addition, Mul multiplication. */
  type Op = (real, real) -> real

  const Add: Op := (a: real, b: real) => a + b
  const Multiply: Op := (a: real, b: real) => a * b

  /** The constant arguments combined by `op`, starting from `unit`. The
      source folds from the left; on exact numbers the grouping does not
      matter, and this fold combines from the right. */
  function FoldConsts(op: Op, unit: real, args: seq<Symbol>): real {
    if args == [] then unit
    else if args[0].Const? then op(args[0].value, FoldConsts(op, unit, args[1..]))
    else FoldConsts(op, unit, args[1..])
  }

  /** The constant arguments added up from zero. */
  function ConstSum(args: seq<Symbol>): real {
    FoldConsts(Add, 0.0, args)
  }

  /** The constant arguments multiplied together from one. */
  function ConstProduct(args: seq<Symbol>): real {
    FoldConsts(Multiply, 1.0, args)
  }

  /** The common result shape of Sum and Mul: the folded constant alone when
      no names remain; the names alone when the accumulator equals `drop`;
      otherwise the constant followed by the names. */
  function Accumulate(action: string, names: seq<Symbol>, total: real, drop: real): Symbol {
    if names == [] then Const(total)
    else if total == drop then App(action, names)
    else App(action, [Const(total)] + names)
  }

  /** Sum: constants folded from 0, names kept, nested applications dropped. */
  function SumFold(action: string, args: seq<Symbol>): (r: Symbol)
    ensures r.Const? <==> forall i :: 0 <= i < |args| ==> !args[i].Name?
    ensures r.Const? ==> r.value == ConstSum(args)
    ensures r.App? ==> r.action == action
    ensures r.App? ==> r.args == NamesOf(args) || r.args == [Const(ConstSum(args))] + NamesOf(args)
    ensures r.App? ==> (ConstSum(args) == 0.0 <==> r.args == NamesOf(args))
  {
    NoNames(args);
    Accumulate(action, NamesOf(args), ConstSum(args), 0.0)
  }

  /** The corrected Mul: constants folded from 1 and the folded constant
      dropped when it is the multiplicative identity 1. The evaluator does
      not use it; it dispatches to MulFoldAsWritten. */
  function MulFold(action: string, args: seq<Symbol>): (r: Symbol)
    ensures r.Const? <==> forall i :: 0 <= i < |args| ==> !args[i].Name?
    ensures r.Const? ==> r.value == ConstProduct(args)
    ensures r.App? ==> r.action == action
    ensures r.App? ==> r.args == NamesOf(args) || r.args == [Const(ConstProduct(args))] + NamesOf(args)
    ensures r.App? ==> (ConstProduct(args) == 1.0 <==> r.args == NamesOf(args))
  {
    NoNames(args);
    Accumulate(action, NamesOf(args), ConstProduct(args), 1.0)
  }

  /** Mul exactly as written in the source: the drop test compares the
      product with 0, the additive identity, so a genuine factor 0 is
      removed and a factor 1 is kept. */
  function MulFoldAsWritten(action: string, args: seq<Symbol>): (r: Symbol)
    ensures r.Const? <==> forall i :: 0 <= i < |args| ==> !args[i].Name?
    ensures r.Const? ==> r.value == ConstProduct(args)
    ensures r.App? ==> r.action == action
    ensures r.App? ==> r.args == NamesOf(args) || r.args == [Const(ConstProduct(args))] + NamesOf(args)
    ensures r.App? ==> (ConstProduct(args) == 0.0 <==> r.args == NamesOf(args))
  {
    NoNames(args);
    Accumulate(action, NamesOf(args), ConstProduct(args), 0.0)
  }

  lemma NoNames(args: seq<Symbol>)
    ensures NamesOf(args) == [] <==> forall i :: 0 <= i < |args| ==> !args[i].Name?
  {
    NamesOfMembers(args);
    if NamesOf(args) != [] {
      assert NamesOf(args)[0] in args;
    }
  }

  // ---------------------------------------------------------------------
  // Meaning of the accumulators

  /** No nested applications among the arguments: the inputs on which the
      accumulators are value-preserving. */
  predicate Flat(args: seq<Symbol>) {
    forall i :: 0 <= i < |args| ==> !args[i].App?
  }

  /** The number a constant or name stands for under a valuation of names. */
  function Leaf(s: Symbol, env: string -> real): real {
    match s
    case Const(c) => c
    case Name(n) => env(n)
    case App(_, _) => 0.0
  }

  /** The arguments' numbers combined by `op`. */
  function Combine(op: Op, unit: real, args: seq<Symbol>, env: string -> real): real {
    if args == [] then unit else op(Leaf(args[0], env), Combine(op, unit, args[1..], env))
  }

  /** What an accumulator result stands for: its constant, or its arguments
      combined. */
  function Meaning(op: Op, unit: real, r: Symbol, env: string -> real): real {
    match r
    case App(_, xs) => Combine(op, unit, xs, env)
    case _ => Leaf(r, env)
  }

  function SumOf(args: seq<Symbol>, env: string -> real): real {
    Combine(Add, 0.0, args, env)
  }

  function ProductOf(args: seq<Symbol>, env: string -> real): real {
    Combine(Multiply, 1.0, args, env)
  }

  /** `op` is commutative and associative with identity `unit`. */
  ghost predicate Monoid(op: Op, unit: real) {
    && (forall a, b :: op(a, b) == op(b, a))
    && (forall a, b, c :: op(op(a, b), c) == op(a, op(b, c)))
    && (forall a :: op(unit, a) == a)
  }

  lemma AddMonoid()
    ensures Monoid(Add, 0.0)
  {
  }

  lemma MultiplyMonoid()
    ensures Monoid(Multiply, 1.0)
  {
    forall a: real, b: real
      ensures Multiply(a, b) == Multiply(b, a)
    {
      assert a * b == b * a;
    }
    forall a: real, b: real, c: real
      ensures Multiply(Multiply(a, b), c) == Multiply(a, Multiply(b, c))
    {
      MulAssociative(a, b, c);
    }
  }

  lemma MulAssociative(a: real, b: real, c: real)
    ensures (a * b) * c == a * (b * c)
  {
  }

  /** The name arguments after the first one, prefixed by it when it is a name. */
  lemma NamesOfCons(args: seq<Symbol>)
    requires args != []
    ensures NamesOf(args) == if args[0].Name? then [args[0]] + NamesOf(args[1..]) else NamesOf(args[1..])
  {
  }

  /** Combining the arguments is combining their constants with their names. */
  lemma {:induction false} CombineSplits(op: Op, unit: real, args: seq<Symbol>, env: string -> real)
    requires Monoid(op, unit) && Flat(args)
    ensures Combine(op, unit, args, env) ==
            op(FoldConsts(op, unit, args), Combine(op, unit, NamesOf(args), env))
  {
    if args != [] {
      var rest := args[1..];
      CombineSplits(op, unit, rest, env);
      NamesOfCons(args);
      var v := Leaf(args[0], env);
      var c := FoldConsts(op, unit, rest);
      var n := Combine(op, unit, NamesOf(rest), env);
      assert Combine(op, unit, args, env) == op(v, op(c, n));
      if args[0].Name? {
        var ns := [args[0]] + NamesOf(rest);
        assert ns[0] == args[0] && ns[1..] == NamesOf(rest);
        assert Combine(op, unit, NamesOf(args), env) == op(v, n);
        calc {
          op(v, op(c, n));
          op(op(v, c), n);
          op(op(c, v), n);
          op(c, op(v, n));
        }
      } else {
        assert args[0].Const? by { assert !args[0].App?; }
        assert FoldConsts(op, unit, args) == op(v, c);
      }
    }
  }

  /** An accumulator whose drop test compares with the operation's own
      identity keeps the value of its input. */
  lemma AccumulatePreservesValue(op: Op, unit: real, action: string, args: seq<Symbol>, env: string -> real)
    requires Monoid(op, unit) && Flat(args)
    ensures Meaning(op, unit, Accumulate(action, NamesOf(args), FoldConsts(op, unit, args), unit), env)
            == Combine(op, unit, args, env)
  {
    CombineSplits(op, unit, args, env);
    var names := NamesOf(args);
    var t := FoldConsts(op, unit, args);
    if names == [] {
      assert op(t, unit) == op(unit, t) == t;
    } else if t != unit {
      var xs := [Const(t)] + names;
      assert xs[0] == Const(t) && xs[1..] == names;
    }
  }

  /** On constants and names, Sum's result stands for the same number as
      its input under every valuation of the names. */
  lemma SumPreservesValue(action: string, args: seq<Symbol>, env: string -> real)
    requires Flat(args)
    ensures Meaning(Add, 0.0, SumFold(action, args), env) == SumOf(args, env)
  {
    AddMonoid();
    AccumulatePreservesValue(Add, 0.0, action, args, env);
  }

  /** The corrected Mul keeps the value of the product under every valuation. */
  lemma MulPreservesValue(action: string, args: seq<Symbol>, env: string -> real)
    requires Flat(args)
    ensures Meaning(Multiply, 1.0, MulFold(action, args), env) == ProductOf(args, env)
  {
    MultiplyMonoid();
    AccumulatePreservesValue(Multiply, 1.0, action, args, env);
  }

  /** Two constants add up to their sum. */
  lemma SumOfTwoConstants(action: string, a: real, b: real)
    ensures SumFold(action, [Const(a), Const(b)]) == Const(a + b)
  {
    var args := [Const(a), Const(b)];
    assert args[1..] == [Const(b)] && [Const(b)][1..] == [];
    assert FoldConsts(Add, 0.0, [Const(b)]) == b;
    assert ConstSum(args) == a + b;
    assert NamesOf([Const(b)]) == [];
    assert NamesOf(args) == [];
  }

  /** A constant and a free name stay symbolic; a zero constant is dropped. */
  lemma SumConstantAndName(action: string, c: real, x: string)
    ensures SumFold(action, [Const(c), Name(x)]) ==
            if c == 0.0 then App(action, [Name(x)]) else App(action, [Const(c), Name(x)])
  {
    var args := [Const(c), Name(x)];
    assert args[1..] == [Name(x)] && [Name(x)][1..] == [];
    assert FoldConsts(Add, 0.0, [Name(x)]) == 0.0;
    assert ConstSum(args) == c;
    assert NamesOf([Name(x)]) == [Name(x)];
    assert NamesOf(args) == [Name(x)];
  }

  /** Nested applications are silently dropped by Sum: Sum[2, Sub[x, 1]]
      folds to the constant 2. */
  lemma SumDropsApplications()
    ensures SumFold("Sum", [Const(2.0), App("Sub", [Name("x"), Const(1.0)])]) == Const(2.0)
  {
  }

  lemma {:induction false} NamesOfNames(names: seq<Symbol>)
    requires forall i :: 0 <= i < |names| ==> names[i].Name?
    ensures NamesOf(names) == names && ConstSum(names) == 0.0 && ConstProduct(names) == 1.0
  {
    if names != [] {
      NamesOfNames(names[1..]);
    }
  }

  lemma ReFoldParts(c: real, names: seq<Symbol>)
    requires forall i :: 0 <= i < |names| ==> names[i].Name?
    ensures NamesOf([Const(c)] + names) == names
    ensures ConstSum([Const(c)] + names) == c
    ensures ConstProduct([Const(c)] + names) == c
  {
    NamesOfNames(names);
    assert ([Const(c)] + names)[1..] == names;
  }

  /** Sum is a normal form: folding a symbolic Sum result again changes
      nothing. */
  lemma SumIdempotent(action: string, args: seq<Symbol>)
    ensures var r := SumFold(action, args); r.App? ==> SumFold(action, r.args) == r
  {
    var names := NamesOf(args);
    NamesOfMembers(args);
    assert forall i :: 0 <= i < |names| ==> names[i] in names;
    NamesOfNames(names);
    ReFoldParts(ConstSum(args), names);
  }

  /** The corrected Mul is a normal form as well. */
  lemma MulIdempotent(action: string, args: seq<Symbol>)
    ensures var r := MulFold(action, args); r.App? ==> MulFold(action, r.args) == r
  {
    var names := NamesOf(args);
    NamesOfMembers(args);
    assert forall i :: 0 <= i < |names| ==> names[i] in names;
    NamesOfNames(names);
    ReFoldParts(ConstProduct(args), names);
  }

  /** The source's Mul turns 0 * x into the one-argument product of x,
      which stands for x rather than 0, and folding again yields 1 * x: it
      neither keeps the value nor reaches a normal form. */
  lemma MulAsWrittenDropsZero()
    ensures MulFoldAsWritten("Mul", [Const(0.0), Name("x")]) == App("Mul", [Name("x")])
    ensures MulFoldAsWritten("Mul", [Name("x")]) == App("Mul", [Const(1.0), Name("x")])
    ensures var env := (n: string) => 1.0;
      ProductOf([Const(0.0), Name("x")], env) == 0.0 &&
      Meaning(Multiply, 1.0, MulFoldAsWritten("Mul", [Const(0.0), Name("x")]), env) == 1.0
  {
    assert NamesOf([Const(0.0), Name("x")]) == [Name("x")] by {
      assert [Const(0.0), Name("x")][1..] == [Name("x")];
    }
  }

  /** The built-ins answering True or False. */
  predicate IsPredicate(op: Builtin) {
    op == EqualOp || op == GreaterOp || op == GreaterOrEqualOp || op == LessOp || op == LessOrEqualOp
  }

  /** Dispatch of a built-in on already reduced arguments. Mul is dispatched
      to the fold as the source writes it. */
  function Apply(op: Builtin, action: string, args: seq<Symbol>, pow: PowOracle): (r: Result<Symbol>)
    ensures op == SumOp || op == MulOp ==> r.Ok?
    ensures op == ListOp ==> (r.Err? <==> args == [])
    ensures |args| < 2 && op != SumOp && op != MulOp && op != ListOp ==> r == Err(ArityError)
    ensures r.Err? ==> r.error in {ArityError, EmptySequence, DivideByZero, Overflow}
    ensures r.Ok? && IsPredicate(op) ==> r.value == TrueName || r.value == FalseName
    ensures r.Ok? && r.value.App? && op != ListOp ==> r.value.action == action
  {
    match op
    case SumOp => Ok(SumFold(action, args))
    case MulOp => Ok(MulFoldAsWritten(action, args))
    case SubOp => MathEval(action, args, SubFold)
    case DivOp => MathEval(action, args, DivFold)
    case RemOp => MathEval(action, args, RemFold)
    case DivideOp => MathEval(action, args, DivideFold)
    case PowOp => MathEval(action, args, (a, b) => PowFold(pow, a, b))
    case ListOp => List(args)
    case EqualOp => Equal(args)
    case GreaterOp => LogicEval(Gt, args)
    case GreaterOrEqualOp => LogicEval(Ge, args)
    case LessOp => LogicEval(Lt, args)
    case LessOrEqualOp => LogicEval(Le, args)
  }
}
