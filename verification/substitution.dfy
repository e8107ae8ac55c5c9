/** Single-variable substitution used to expand delayed-rule calls. */
module Substitution {
  import opened Terms

  /** Replaces every name leaf equal to `p` by `v`. Constants and other
      names are copied; a nested assignment child is copied verbatim without
      descending; every other nested application is rewritten recursively.
      The action of an application is never touched. */
  function Replace(s: Symbol, p: string, v: Symbol): (r: Symbol)
    ensures s.App? ==> r.App? && r.action == s.action && |r.args| == |s.args|
  {
    match s
    case Const(_) => s
    case Name(n) => if n == p then v else s
    case App(a, args) =>
      App(a, seq(|args|, i requires 0 <= i < |args| =>
                   if IsAssignment(args[i]) then args[i] else Replace(args[i], p, v)))
  }

  /** The shape of one substitution step: same action and arity, and each
      argument is the value (a matching name), a recursively replaced child
      (a non-assignment application), or a verbatim copy (everything else,
      nested assignments included). */
  lemma ReplaceShape(e: Symbol, p: string, v: Symbol)
    requires e.App?
    ensures var r := Replace(e, p, v);
      && r.App? && r.action == e.action && |r.args| == |e.args|
      && (forall i :: 0 <= i < |e.args| && e.args[i] == Name(p) ==> r.args[i] == v)
      && (forall i :: 0 <= i < |e.args| && IsAssignment(e.args[i]) ==> r.args[i] == e.args[i])
      && (forall i :: 0 <= i < |e.args| && e.args[i].Const? ==> r.args[i] == e.args[i])
      && (forall i :: 0 <= i < |e.args| && e.args[i].Name? && e.args[i].id != p ==>
            r.args[i] == e.args[i])
      && (forall i :: 0 <= i < |e.args| && e.args[i].App? && !IsAssignment(e.args[i]) ==>
            r.args[i] == Replace(e.args[i], p, v))
  {
  }

  /** When `p` does not occur outside nested assignments, substitution is
      the identity. */
  lemma {:induction false} ReplaceAbsent(s: Symbol, p: string, v: Symbol)
    requires !Free(p, s)
    ensures Replace(s, p, v) == s
  {
    match s
    case Const(_) =>
    case Name(_) =>
    case App(a, args) =>
      var r := Replace(s, p, v);
      forall i | 0 <= i < |args|
        ensures r.args[i] == args[i]
      {
        if !IsAssignment(args[i]) {
          ReplaceAbsent(args[i], p, v);
        }
      }
      assert r.args == args;
  }

  /** When the value does not itself mention `p`, no reachable occurrence of
      `p` survives substitution. */
  lemma {:induction false} ReplaceEliminates(s: Symbol, p: string, v: Symbol)
    requires !Free(p, v)
    ensures !Free(p, Replace(s, p, v))
  {
    match s
    case Const(_) =>
    case Name(_) =>
    case App(a, args) =>
      var r := Replace(s, p, v);
      forall i | 0 <= i < |args| && !IsAssignment(r.args[i])
        ensures !Free(p, r.args[i])
      {
        ReplaceEliminates(args[i], p, v);
      }
  }

  /** Substituting twice with a value free of `p` is the same as once. */
  lemma ReplaceIdempotent(s: Symbol, p: string, v: Symbol)
    requires !Free(p, v)
    ensures Replace(Replace(s, p, v), p, v) == Replace(s, p, v)
  {
    ReplaceEliminates(s, p, v);
    ReplaceAbsent(Replace(s, p, v), p, v);
  }

  /** Renaming the parameter to a name `q` that does not occur, then renaming
      back, restores the body exactly: substitution loses no structure. */
  lemma {:induction false} ReplaceRenameRoundTrip(s: Symbol, p: string, q: string)
    requires !Free(q, s)
    ensures Replace(Replace(s, p, Name(q)), q, Name(p)) == s
  {
    match s
    case Const(_) =>
    case Name(_) =>
    case App(a, args) =>
      var r := Replace(s, p, Name(q));
      var t := Replace(r, q, Name(p));
      forall i | 0 <= i < |args|
        ensures t.args[i] == args[i]
      {
        if !IsAssignment(args[i]) {
          ReplaceRenameRoundTrip(args[i], p, q);
          assert r.args[i] == Replace(args[i], p, Name(q));
        }
      }
      assert t.args == args;
  }
}
