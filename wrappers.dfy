// Option and Result types shared by every module of the model.
// A Result carries the JavaScript exception the browser would throw.
module Wrappers {

  datatype Option<T> = None | Some(value: T)

  /** The exceptions the modelled code can raise. */
  datatype JsError =
    | RangeError      // a DataView or typed-array access outside its buffer
    | IndexSizeError  // CSSOM insertRule/deleteRule with an index out of range, or a negative minLength/maxLength
    | SyntaxError     // CSSOM insertRule with a rule text that does not parse
    | TypeError       // a property read on `undefined` or `null`

  datatype Result<T> = Ok(value: T) | Err(error: JsError)
  {
    predicate IsFailure() { Err? }

    function PropagateFailure<U>(): Result<U>
      requires Err?
    {
      Err(error)
    }

    function Extract(): T
      requires Ok?
    {
      value
    }
  }
}
