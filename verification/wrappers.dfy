/** Failure-carrying wrappers shared by every module of the Osmium kernel model.

    The C# kernel signals errors by throwing .NET exceptions and by returning
    `null`.  The model makes each of them explicit: an operation that can throw
    returns a `Result`, and the exception it would throw is named by a `Fault`.
 */
module Wrappers {

  datatype Option<+T> = None | Some(value: T)

  /** The exceptions the kernel can raise, plus `OutOfFuel` for the evaluator's
      unbounded rewrite loop and `NotModelled` for inputs that need the
      floating-point part of the numeric tower. */
  datatype Fault =
    | ArgumentNull            // ArgumentNullException from a constructor
    | InvalidSymbolName       // ArgumentException from the symbol table
    | DuplicateCapture        // ImmutableDictionary.Add on a bound key
    | SequenceExhausted       // Enumerable.First() on an empty sequence
    | DivideByZero            // BigInteger division by zero
    | IndexOutOfRange         // list or string index out of range
    | ArgumentOutOfRange      // Substring/GetRange/CreateBlank range errors
    | NullReference           // dereferencing a null symbol
    | NullResult              // evaluation produced a null value
    | InvalidOperation        // Single() on a stack without exactly one item
    | FormatError             // int.Parse on text that is not an integer
    | Overflow                // int.Parse on an integer outside 32 bits
    | NotModelled             // a Real-number path, outside this model
    | OutOfFuel               // the evaluator ran out of its step budget

  datatype Result<+T> = Ok(value: T) | Err(error: Fault) {
    predicate IsFailure() { Err? }
    function PropagateFailure<U>(): Result<U>
      requires Err?
    {
      Err(error)
    }
    function Extract(): T
      requires Ok?
    {
      value
    }
  }

  /** Which reading of the source a definition follows.  `AsWritten` keeps the
      defects listed under "Findings" in README.md; `Corrected` repairs them.
      Every other behaviour is the same under both. */
  datatype Build = AsWritten | Corrected
}
