/** What a handler's `try` block can throw, and the outcome of a step that may throw. */
module Exceptions {
  import opened Json
  import Validation

  /** A thrown value, by the classes the two error handlers test for. */
  datatype Thrown =
      /** a `yup.ValidationError`, with its `errors` list */
    | ValidationError(errors: seq<Validation.FieldError>)
      /** an `http-errors` `HttpError`, which always carries a status, a message and a stack */
    | HttpError(statusCode: int, message: string, stack: string)
      /** any other value JavaScript counts as true: a plain `Error`, a `TypeError`, an SDK failure or
          a truthy primitive, with its own `statusCode`, `message` and `stack`, if any */
    | Other(ownStatusCode: Option<int>, ownMessage: Option<string>, ownStack: Option<string>)
      /** a value JavaScript counts as false (`undefined`, `null`, `false`, `0`, `""`), which has no
          properties of its own */
    | Falsy

  /** The result of a step that either completes with a value or throws. */
  datatype Outcome<+T> = Ok(value: T) | Threw(error: Thrown)

  /** A built-in error object (`new Error(message)`, `TypeError`, ...): truthy, no status code. */
  function ErrorObject(name: string, message: string): Thrown {
    Other(None, Some(message), Some(name + ": " + message))
  }

  /** Reading a property of `undefined` or `null`. */
  function PropertyOfNothing(nothing: string, property: string): Thrown {
    ErrorObject("TypeError", "Cannot read properties of " + nothing + " (reading '" + property + "')")
  }
}
