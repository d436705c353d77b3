/** Failure-carrying values used throughout the model.

    The source reports failures by throwing exceptions whose message is later
    logged; `Result` carries that message on its failure side. */
module Wrappers {

  /** Present or absent value; `None` stands for a null reference returned by the host. */
  datatype Option<+T> = None | Some(value: T)

  /** Either a value or the message of the exception the source would throw. */
  datatype Result<+T> = Ok(value: T) | Err(message: string) {

    predicate IsFailure() {
      Err?
    }

    function PropagateFailure<U>(): Result<U>
      requires Err?
    {
      Err(message)
    }

    function Extract(): T
      requires Ok?
    {
      value
    }
  }
}
