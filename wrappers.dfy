/** Option and Result, the two failure-carrying datatypes used throughout the model.
    A Python exception that the code lets propagate becomes a `Result` failure. */
module Wrappers {

  datatype Option<+T> = None | Some(value: T) {
    function GetOr(default: T): T {
      match this
      case Some(v) => v
      case None => default
    }

    predicate IsFailure() {
      None?
    }

    function PropagateFailure<U>(): Option<U>
      requires None?
    {
      None
    }

    function Extract(): T
      requires Some?
    {
      value
    }
  }

  /** Python's built-in exceptions, as far as the modelled code raises or catches them. */
  datatype Error =
    | ValueError(message: string)
    | KeyError(key: string)
    | TypeError
    | AttributeError
    | FileNotFound(path: string)
    | PermissionDenied(path: string)
    | IsADirectory(path: string)
    | NotADirectory(path: string)
    | FileExists(path: string)
    | YamlError(path: string)
    | JsonDecodeError(path: string)
    | UnicodeDecodeError(path: string)
    | BadZipFile(path: string)
    | SameFileError(path: string)

  datatype Result<+R> = Ok(value: R) | Err(error: Error) {
    predicate IsFailure() {
      Err?
    }

    function PropagateFailure<U>(): Result<U>
      requires Err?
    {
      Err(error)
    }

    function Extract(): R
      requires Ok?
    {
      value
    }
  }
}
