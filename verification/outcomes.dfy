/** Outcomes of the declaration checker's parser: a value, or the
    exception that stopped it.

    The checker is a Python test: it fails by raising. Two exceptions can
    escape its parser, and both are values here:
    - `ValueError(literal)`: `int(literal, 0)` rejected the text `literal`;
    - `ModeCountNotFound`: the enum block declares no `MODE_COUNT`
      (the `AssertionError` raised at the end of the enum loop).
 */
module Outcomes {

  /** A value that may be absent, such as the index of a character that
      does not occur. */
  datatype Option<+T> = None | Some(value: T)

  /** An exception that escapes the parser. */
  datatype ParseError =
    | ValueError(literal: string)
    | ModeCountNotFound

  /** A parsed value, or the exception that stopped the parse. */
  datatype Result<+T> = Ok(value: T) | Err(error: ParseError) {
    // The three members below let `:-` pass an exception on, as Python
    // propagates a raise.

    predicate IsFailure() {
      Err?
    }

    function PropagateFailure<U>(): Result<U>
      requires Err?
    {
      Err(error)
    }

    function Extract(): T
      requires Ok?
    {
      value
    }
  }
}
