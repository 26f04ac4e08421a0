/** The API Gateway side of a handler: the event it is called with and the response it returns. A
    response body is kept as the object the handler passes to `JSON.stringify`, not as text. */
module Http {
  import opened Json
  import opened Exceptions
  import Validation
  import Store

  const LIST_MESSAGE := "Success!!;)"
  const SUCCESS_MESSAGE := "Success;)"
  const FAILURE_MESSAGE := "Failed;("
  const MISSING_MESSAGE := "Product doesn't exist"

  /** The property of the response body next to `message`. */
  datatype Payload =
    | Data(products: seq<Record>)
    | Item(item: Record)
    | Missing(text: string)
    | PutResult(result: Store.StoreReply)
    | UpdateResult(updateResult: Store.StoreReply)
    | DeleteResult(deleteResult: Store.StoreReply)
    | Errors(errors: seq<Validation.FieldError>)
      /** `errorMsg` and `errorStack`; `JSON.stringify` drops either one when it is undefined */
    | ErrorDetail(errorMsg: Option<string>, errorStack: Option<string>)

  /** The body before a handler sets it (`""`, or no body at all in the older handlers), or
      `{message, ...payload}`. */
  datatype Body = Blank | Envelope(message: string, payload: Payload)

  /** `{statusCode, body}`; the status is undefined when an error without one is passed through. */
  datatype Response = Response(statusCode: Option<int>, body: Body)

  /** What a handler or an error handler ends with: a response, or a value it throws on. */
  datatype Handled = Respond(response: Response) | Rethrow(error: Thrown)

  /** The request: the outcome of `JSON.parse(event.body)`, an object with distinct keys, and the path
      parameters (null or a map). */
  datatype Event = Event(body: Outcome<Object>, pathParameters: Option<map<string, string>>) {
    /** `event.pathParameters?.[name]`: the parameter when there are path parameters and one of them
        is `name`, otherwise undefined. */
    function PathParameter(name: string): (p: Option<string>)
      ensures p.Some? <==> pathParameters.Some? && name in pathParameters.value
      ensures p.Some? ==> p.value == pathParameters.value[name]
    {
      if pathParameters.Some? && name in pathParameters.value then Some(pathParameters.value[name]) else None
    }
  }

  /** The response every handler starts from: status 200, body not yet set. */
  const INITIAL := Response(Some(200), Blank)
}
