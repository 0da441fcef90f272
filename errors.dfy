/** The interpreter's errors and the Result type that carries them. */
module Errors {
  import opened Strings

  /** Python exceptions other than LispError that the source lets escape. */
  datatype HostKind = IndexError | AttributeError | TypeError | ZeroDivisionError

  datatype Error =
    | Incomplete(text: string)                 // find_matching_paren ran off the end
    | ExpectedEof                              // more ')' than '(' in parse
    | Unbound(symbol: string)                  // Environment.lookup of an absent symbol
    | AlreadyDefined(symbol: string)           // Environment.set of a present symbol
    | Malformed(form: string)                  // assert_exp_length / assert_valid_definition
    | NonList(text: string)                    // lambda whose parameter spec is not a list
    | EmptyList                                // head of an empty list
    | NotIntegers                              // arithmetic on a non-integer
    | WrongArgCount(expected: nat, got: nat)   // closure called with the wrong arity
    | NotAFunction(text: string)               // application of a non-closure
    | Host(kind: HostKind)                     // a Python exception that is not a LispError
    | OutOfFuel                                // the model's bound on evaluation depth
  {
    /** The errors the source raises as `LispError`. */
    predicate IsLispError() {
      !Host? && !OutOfFuel?
    }

    /** The text the source puts into the LispError; the `asserts` helpers' texts are
        not available, so Malformed names the form only. */
    function Message(): string
      requires IsLispError()
    {
      match this
      case Incomplete(text) => "Incomplete expression: " + text
      case ExpectedEof => "Expected EOF"
      case Unbound(symbol) => symbol
      case AlreadyDefined(symbol) => "already defined: " + symbol
      case Malformed(form) => "Malformed " + form
      case NonList(text) => "non-list: " + text
      case EmptyList => "empty list"
      case NotIntegers => "Arguments must be integers."
      case WrongArgCount(expected, got) =>
        "wrong number of arguments, expected " + NatToString(expected) + " got " + NatToString(got)
      case NotAFunction(text) => "not a function: " + text
    }
  }

  datatype Result<T> = Ok(value: T) | Err(error: Error) {
    predicate IsFailure() {
      Err?
    }

    function PropagateFailure<U>(): Result<U>
      requires Err?
    {
      Err(error)
    }

    function Extract(): T
      requires Ok?
    {
      value
    }
  }
}
