/** The symbol model: constants, names and operator applications. */
module Terms {

  /** A term of the language. An application's action is always a plain
      operator name; there are no higher-order operators. Constants are
      exact decimal numbers, modelled as reals. */
  datatype Symbol =
    | Const(value: real)
    | Name(id: string)
    | App(action: string, args: seq<Symbol>)

  /** The two special forms, recognised by the evaluator before dispatch. */
  const SetAction: string := "Set"
  const DelayedAction: string := "Delayed"

  const TrueName: Symbol := Name("True")
  const FalseName: Symbol := Name("False")

  /** The boolean names the comparison and equality operators answer with. */
  function Truth(b: bool): (r: Symbol)
    ensures r == TrueName || r == FalseName
    ensures r == TrueName <==> b
  {
    if b then TrueName else FalseName
  }

  /** A nested assignment, which substitution copies without descending. */
  predicate IsAssignment(s: Symbol) {
    s.App? && s.action == SetAction
  }

  /** Number of nodes of a term; the evaluator's termination measure. */
  function Size(s: Symbol): (n: nat)
    ensures n >= 1
  {
    match s
    case App(_, args) => 1 + SizeSeq(args)
    case _ => 1
  }

  function SizeSeq(ss: seq<Symbol>): nat
  {
    if ss == [] then 0 else Size(ss[0]) + SizeSeq(ss[1..])
  }

  /** Every argument of an application is strictly smaller than it. */
  lemma {:induction false} SizeOfElement(ss: seq<Symbol>, i: nat)
    requires i < |ss|
    ensures Size(ss[i]) + SizeSeq(ss[i + 1..]) <= SizeSeq(ss)
    decreases i
  {
    if i > 0 {
      SizeOfElement(ss[1..], i - 1);
      assert ss[1..][i - 1] == ss[i];
      assert ss[1..][i..] == ss[i + 1..];
    }
  }

  /** `p` occurs as a name leaf of `s` outside every nested assignment:
      exactly the places substitution reaches. */
  predicate Free(p: string, s: Symbol) {
    match s
    case Const(_) => false
    case Name(n) => n == p
    case App(_, args) =>
      exists i :: 0 <= i < |args| && !IsAssignment(args[i]) && Free(p, args[i])
  }
}
