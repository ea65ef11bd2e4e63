/** What is shared by the models of the CORTX Manager components. */
module Prelude {

  datatype Option<+T> = None | Some(value: T)

  /** The exceptions that the modelled operations raise. */
  datatype Error =
    | NotFound
    | InvalidRequest
    | InternalError
    | AlreadyExists
    | TypeMismatch
    | Malformed

  datatype Result<+T> = Ok(value: T) | Err(error: Error)
  {
    predicate IsFailure() {
      Err?
    }

    function PropagateFailure<U>(): Result<U>
      requires Err?
    {
      Err(error)
    }

    function Extract(): T
      requires Ok?
    {
      value
    }
  }

  lemma {:induction false} Regrouped<T>(a: seq<T>, b: seq<T>, c: seq<T>)
    ensures a + (b + c) == a + b + c
  {
  }
}
