/** Values that stand for the outcomes of the Python code: an optional value,
    a value or the exception that was raised instead. */
module Outcomes {

  datatype Option<T> = None | Some(value: T)

  /** Why building an Example from a data line failed (the source writes a
      message naming the file and line, then exits). */
  datatype SchemaReason =
    | WrongArity(saw: nat, expected: nat)
    | UnknownValue(attribute: string, value: string)

  /** The exceptions the modelled code can raise, as values. */
  datatype Failure =
    | IndexError                 // indexing an empty list or a missing position
    | KeyError                   // a dictionary lookup with a missing key
    | TypeError                  // indexing None, comparing a str with an int
    | ValueError                 // unpacking the wrong number of values
    | AttributeError             // reading a field of None
    | ZeroDivisionError
    | SchemaError(line: int, reason: SchemaReason)

  datatype Result<T> = Ok(value: T) | Err(error: Failure)

  /** The outcome of a procedure that returns nothing. */
  datatype Outcome = Pass | Fail(error: Failure)
}
