/** Optional values, the faults the record's operations can end in, and a
    failure-compatible result type carrying one of them. */
module Outcome {

  datatype Option<+T> = None | Some(value: T)

  /** The exceptions a record operation can raise, by what raises them. */
  datatype Fault =
    | NullPointer   // a null is dereferenced or unboxed
    | ClassCast     // an unchecked cast meets a value of another class
    | Unregistered  // a custom read names a type with no registered deserializer
    | Malformed     // a key list or byte buffer the decoder cannot use
    | Escaped       // a constructor or plug-in throws something no catch clause names

  datatype Result<+T> = Ok(value: T) | Err(fault: Fault) {

    predicate IsFailure() {
      Err?
    }

    function PropagateFailure<U>(): Result<U>
      requires Err?
    {
      Err(fault)
    }

    function Extract(): T
      requires Ok?
    {
      value
    }
  }
}
