/** Failure-compatible result types shared by the whole engine. */
module Outcomes {

  /** The fatal conditions the engine can raise. Every one of them ends the
      evaluation; none is ever caught and retried. Two are the model's own:
      UnsupportedOperatorName, where the source would register a printed
      form, and OutOfFuel, where the source would recurse without bound. */
  datatype Error =
    | ArityError               // an operator read an argument past the end of its list
    | InvalidAssignmentTarget  // the first argument of Set is not a name
    | InvalidCast              // a Delayed argument has the wrong kind of symbol
    | UnsupportedOperatorName  // a Delayed definition whose name is not a plain name
    | DuplicateDefinition      // Delayed reuses a registered operator name
    | DuplicateBinding         // Set rebinds a name under the rejecting policy
    | UndefinedOperator        // an action with no dispatch entry
    | MissingRule              // a delayed-call entry with no stored rule
    | EmptySequence            // List applied to no arguments
    | DivideByZero             // Div, Rem or Divide by the constant zero
    | Overflow                 // a numeric conversion out of range
    | OutOfFuel                // the expansion budget of delayed rules ran out

  datatype Option<+T> = None | Some(value: T)

  datatype Result<+T> = Ok(value: T) | Err(error: Error) {

    predicate IsFailure() {
      Err?
    }

    function PropagateFailure<U>(): Result<U>
      requires Err?
    {
      Err(error)
    }

    function Extract(): T
      requires Ok?
    {
      value
    }
  }
}
