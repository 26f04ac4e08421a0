/** `handleError` of src/errorHandler.ts: a validation error becomes a 400 response listing its errors,
    an `HttpError` keeps its own status, and anything else is thrown on unchanged. */
module ErrorHandler {
  import opened Json
  import opened Exceptions
  import opened Http

  /** Exactly one of three outcomes: 400 with the errors, the error's own status with its message and
      stack, or the same value re-thrown; both responses say "Failed;(". */
  function HandleError(e: Thrown): (h: Handled)
    ensures h.Rethrow? <==> e.Other? || e.Falsy?
    ensures h.Rethrow? ==> h.error == e
    ensures h.Respond? ==> h.response.body.Envelope? && h.response.body.message == FAILURE_MESSAGE
    ensures e.ValidationError? ==>
      h.Respond? && h.response.statusCode == Some(400) && h.response.body.payload == Errors(e.errors)
    ensures e.HttpError? ==>
      h.Respond? && h.response.statusCode == Some(e.statusCode)
      && h.response.body.payload == ErrorDetail(Some(e.message), Some(e.stack))
  {
    match e
    case ValidationError(errors) => Respond(Response(Some(400), Envelope(FAILURE_MESSAGE, Errors(errors))))
    case HttpError(status, message, stack) =>
      Respond(Response(Some(status), Envelope(FAILURE_MESSAGE, ErrorDetail(Some(message), Some(stack)))))
    case Other(_, _, _) => Rethrow(e)
    case Falsy => Rethrow(e)
  }
}
