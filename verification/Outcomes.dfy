/** Result types standing for the exceptions and the optional values of the source. */
module Outcomes {

  datatype Option<+T> = None | Some(value: T)

  datatype Error =
    | BadRowKey(field: string)
    | EmptyColumn
    | UnknownField
    | NotAnInteger

  datatype Result<+T> = Ok(value: T) | Err(error: Error) {
    predicate IsFailure() {
      Err?
    }

    function PropagateFailure<U>(): Result<U>
      requires Err?
    {
      Err(error)
    }

    function GetOr(default: T): T {
      if Ok? then value else default
    }

    function Extract(): T
      requires Ok?
    {
      value
    }
  }
}
