/** Failure-compatible wrappers shared by every module of the model.
    `Result.Err` stands for a thrown exception (a `skyline::exception` on the
    C++ side, an `IOException` or `IllegalArgumentException` on the Kotlin
    side); its message is informative only. */
module Wrappers {

  datatype Option<+T> = None | Some(value: T)

  datatype Result<+T> = Ok(value: T) | Err(message: string) {
    predicate IsFailure() { Err? }

    function PropagateFailure<U>(): Result<U>
      requires Err?
    {
      Err(message)
    }

    function Extract(): T
      requires Ok?
    {
      value
    }
  }
}
