/** Failure-compatible wrappers shared by every module of the model. */
module Common {

  /** An optional value; `None` stands for Rust's `None` and for `Err(())`. */
  datatype Option<+T> = None | Some(value: T) {
    predicate IsFailure() {
      None?
    }

    function PropagateFailure<U>(): Option<U>
      requires None?
    {
      None
    }

    function Extract(): T
      requires Some?
    {
      value
    }

    function GetOr(default: T): T {
      match this
      case Some(v) => v
      case None => default
    }
  }

  /** The error kinds the modelled code produces.  `Validation` is raised by the
      filter compiler; `Storage` stands for any failure reported by a storage or
      action collaborator whose body is outside the model; `Missing` is the
      GUI store's error for a record passed without its id. */
  datatype Error = Validation(message: string) | Storage(message: string) | Missing(message: string)

  /** A value or the error that aborted its computation (Rust's `Result`). */
  datatype Result<+T> = Ok(value: T) | Err(error: Error) {
    predicate IsFailure() {
      Err?
    }

    function PropagateFailure<U>(): Result<U>
      requires Err?
    {
      Err(error)
    }

    function Extract(): T
      requires Ok?
    {
      value
    }
  }
}
