/**
 The failure values of the entrypoint-swap pipeline. Every exception the core
 raises becomes one constructor of `Error`, and every operation that can throw
 returns a `Result`.
 */
module Errors {

  /** Conventional optional value; also stands for PHP's nullable parameters. */
  datatype Option<+T> = None | Some(value: T)

  /** One constructor per exception kind raised by the modelled code. */
  datatype Error =
      /** A configuration key is absent without a default, or its value is not a string. */
    | ConfigIsInvalid(name: string)
      /** A configuration key holds the empty string. */
    | ConfigIsEmpty(name: string)
      /** The resolved template path does not exist. */
    | TemplateFileIsMissing(path: string)
      /** The template exists but its content cannot be read. */
    | TemplateFileIsInvalid(path: string)
      /** The filesystem refused to move `origin` to `target`. */
    | CannotRename(origin: string, target: string)

  /** Either a value or the error that aborted the computation. */
  datatype Result<+T> = Ok(value: T) | Err(error: Error) {

    predicate IsFailure() {
      Err?
    }

    function PropagateFailure<U>(): Result<U>
      requires Err?
    {
      Err(error)
    }

    function Extract(): T
      requires Ok?
    {
      value
    }
  }
}
