/** The crate's error type (client/src/error.rs) and the `Result` it is used with. */
module Errors {

  /** `Store` is a failure reported by the key-value engine, `Serde` a bincode
      failure, `Corruption` a stored value of the wrong shape, `Custom` caller misuse. */
  datatype Error =
    | Store(reason: string)
    | Serde
    | Corruption(message: string)
    | Custom(message: string)

  datatype Result<+T> = Ok(value: T) | Err(error: Error) {

    predicate IsFailure() {
      Err?
    }

    function PropagateFailure<U>(): Result<U>
      requires Err?
    {
      Err(error)
    }

    function Extract(): T
      requires Ok?
    {
      value
    }
  }
}
