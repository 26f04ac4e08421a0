/** The five handlers of src/api.ts. Each takes the event and, for the one store call it may make,
    the store's answer (a result or a thrown failure); it returns what it ends with and the command it
    sent, if any. The `response` object each handler mutates is a local variable updated in place;
    every failure inside the `try` goes to `handleError`. */
module Api {
  import opened Json
  import opened Exceptions
  import opened Http
  import opened Store
  import Validation
  import UpdateExpression
  import ErrorHandler

  /** `marshall({ id: event.pathParameters?.id })`: the key under `id` when the request has an `id`
      path parameter; otherwise `marshall` throws a value `handleError` throws on. */
  function ItemKey(event: Event): (k: Outcome<Key>)
    ensures k.Ok? <==> event.PathParameter("id").Some?
    ensures k.Ok? ==> k.value == Key("id", event.PathParameter("id").value)
    ensures k.Threw? ==> ErrorHandler.HandleError(k.error) == Rethrow(k.error)
  {
    MarshallKey("id", event.PathParameter("id"))
  }

  /** A 400 "Failed;(" response whose `errors` are not empty and each name a field `r` really gets
      wrong. */
  predicate IsRejection(h: Handled, r: Record) {
    && h.Respond? && h.response.statusCode == Some(400)
    && h.response.body.Envelope? && h.response.body.message == FAILURE_MESSAGE
    && h.response.body.payload.Errors? && |h.response.body.payload.errors| > 0
    && forall e | e in h.response.body.payload.errors :: !Validation.FieldValid(e.field, r)
  }

  /** GET /products: the scanned items under "Success!!;)". A scan without `Items` makes the `map`
      throw a `TypeError`, which is no `HttpError`, so it is re-thrown. */
  method GetAllProducts(reply: Outcome<ScanOutput>) returns (h: Handled, sent: Option<Command>)
    ensures sent == Some(Scan)
    ensures reply.Ok? && reply.value.items.Some? ==>
      h == Respond(Response(Some(200), Envelope(LIST_MESSAGE, Data(reply.value.items.value))))
    ensures reply.Ok? && reply.value.items.None? ==> h == Rethrow(ITEMS_UNDEFINED)
    ensures reply.Threw? ==> h == ErrorHandler.HandleError(reply.error)
  {
    var response := INITIAL;
    sent := Some(Scan);
    if reply.Threw? {
      h := ErrorHandler.HandleError(reply.error);
      return;
    }
    if reply.value.items.None? {
      h := ErrorHandler.HandleError(ITEMS_UNDEFINED);
      return;
    }
    response := response.(body := Envelope(LIST_MESSAGE, Data(reply.value.items.value)));
    h := Respond(response);
  }

  /** POST /products: the body gets the fresh `productId` as its `id`, overwriting any `id` the caller
      sent and keeping every other property; the result is validated, and only a valid product whose
      other numbers are all safe integers is put. An invalid one is answered with 400 and errors that
      each name a field the body really gets wrong; an unsafe number makes `marshall` throw, and that
      is thrown on. */
  method CreateProduct(event: Event, productId: string, reply: Outcome<StoreReply>)
    returns (h: Handled, sent: Option<Command>)
    ensures sent.Some? <==>
      event.body.Ok? && Validation.IsProduct(event.body.value) && MarshallableBesides(event.body.value, "id")
    ensures sent.Some? ==> sent.value.PutItem? && DistinctKeys(sent.value.item)
    ensures sent.Some? ==> Get(sent.value.item, "id") == Some(Str(productId))
    ensures sent.Some? ==> forall k | k != "id" :: Get(sent.value.item, k) == Get(event.body.value, k)
    ensures event.body.Threw? ==> h == ErrorHandler.HandleError(event.body.error)
    ensures event.body.Ok? && !Validation.IsProduct(event.body.value) ==> IsRejection(h, event.body.value)
    ensures event.body.Ok? && Validation.IsProduct(event.body.value) && !MarshallableBesides(event.body.value, "id")
      ==> h.Rethrow? && h.error.Other? && h.error.ownStatusCode.None?
    ensures sent.Some? && reply.Ok? ==>
      h == Respond(Response(Some(200), Envelope(SUCCESS_MESSAGE, PutResult(reply.value))))
    ensures sent.Some? && reply.Threw? ==> h == ErrorHandler.HandleError(reply.error)
  {
    var response := INITIAL;
    sent := None;
    if event.body.Threw? {
      h := ErrorHandler.HandleError(event.body.error);
      return;
    }
    var productRequest := event.body.value;
    productRequest := Assign(productRequest, "id", Str(productId));
    SetStringProperty(event.body.value, "id", productId);
    Validation.ValidateIgnoresOtherProperties(event.body.value, "id", Str(productId));
    var verdict := Validation.Validate(productRequest);
    if verdict.Invalid? {
      h := ErrorHandler.HandleError(ValidationError(verdict.errors));
      return;
    }
    var item := MarshallItem(productRequest);
    if item.Threw? {
      h := ErrorHandler.HandleError(item.error);
      return;
    }
    sent := Some(PutItem(item.value));
    if reply.Threw? {
      h := ErrorHandler.HandleError(reply.error);
      return;
    }
    response := response.(body := Envelope(SUCCESS_MESSAGE, PutResult(reply.value)));
    h := Respond(response);
  }

  /** GET /products/{id}: 404 with "Failed;(" and "Product doesn't exist" exactly when the store has no
      item under the key, otherwise 200 with "Success;)" and the item. */
  method GetProduct(event: Event, reply: Outcome<GetOutput>) returns (h: Handled, sent: Option<Command>)
    ensures sent.Some? <==> event.PathParameter("id").Some?
    ensures sent.Some? ==> sent.value == GetItem(Key("id", event.PathParameter("id").value))
    ensures sent.None? ==> h.Rethrow?
    ensures sent.Some? && reply.Ok? ==>
      h.Respond? && (h.response.statusCode == Some(404) <==> reply.value.item.None?)
    ensures sent.Some? && reply.Ok? && reply.value.item.Some? ==>
      h == Respond(Response(Some(200), Envelope(SUCCESS_MESSAGE, Item(reply.value.item.value))))
    ensures sent.Some? && reply.Ok? && reply.value.item.None? ==>
      h == Respond(Response(Some(404), Envelope(FAILURE_MESSAGE, Missing(MISSING_MESSAGE))))
    ensures sent.Some? && reply.Threw? ==> h == ErrorHandler.HandleError(reply.error)
  {
    var response := INITIAL;
    var key := ItemKey(event);
    if key.Threw? {
      h, sent := ErrorHandler.HandleError(key.error), None;
      return;
    }
    sent := Some(GetItem(key.value));
    if reply.Threw? {
      h := ErrorHandler.HandleError(reply.error);
      return;
    }
    var result := reply.value;
    if result.item.None? {
      response := response.(statusCode := Some(404));
    }
    response := response.(body := Envelope(
      if result.item.Some? then SUCCESS_MESSAGE else FAILURE_MESSAGE,
      if result.item.Some? then Item(result.item.value) else Missing(MISSING_MESSAGE)));
    h := Respond(response);
  }

  /** PATCH /products/{id}: only a body the schema accepts gets as far as the builder, so the update
      sent always has at least three terms, and it reads back as exactly the body, key by key in order.
      Validation comes before the key is read: an invalid body is a 400 even without an id. After the
      key, `marshall` converts the values map, and throws on a number beyond the safe integers. */
  method UpdateProduct(event: Event, reply: Outcome<StoreReply>) returns (h: Handled, sent: Option<Command>)
    ensures sent.Some? <==>
      && event.body.Ok? && Validation.IsProduct(event.body.value) && event.PathParameter("id").Some?
      && Marshallable(event.body.value)
    ensures sent.Some? ==>
      sent.value == UpdateItem(Key("id", event.PathParameter("id").value), UpdateExpression.Build(event.body.value))
    ensures sent.Some? ==> UpdateExpression.Decode(sent.value.update) == Some(event.body.value)
    ensures sent.Some? ==> |UpdateExpression.ParseExpression(sent.value.update.expression).value| >= 3
    ensures event.body.Threw? ==> h == ErrorHandler.HandleError(event.body.error)
    ensures event.body.Ok? && !Validation.IsProduct(event.body.value) ==> IsRejection(h, event.body.value)
    ensures event.body.Ok? && Validation.IsProduct(event.body.value) && event.PathParameter("id").None? ==>
      h.Rethrow?
    ensures event.body.Ok? && Validation.IsProduct(event.body.value) && !Marshallable(event.body.value) ==>
      h.Rethrow? && h.error.Other? && h.error.ownStatusCode.None?
    ensures sent.Some? && reply.Ok? ==>
      h == Respond(Response(Some(200), Envelope(SUCCESS_MESSAGE, UpdateResult(reply.value))))
    ensures sent.Some? && reply.Threw? ==> h == ErrorHandler.HandleError(reply.error)
  {
    var response := INITIAL;
    sent := None;
    if event.body.Threw? {
      h := ErrorHandler.HandleError(event.body.error);
      return;
    }
    var body := event.body.value;
    var verdict := Validation.Validate(body);
    if verdict.Invalid? {
      h := ErrorHandler.HandleError(ValidationError(verdict.errors));
      return;
    }
    var key := ItemKey(event);
    if key.Threw? {
      h := ErrorHandler.HandleError(key.error);
      return;
    }
    var update := UpdateExpression.Build(body);
    var values := MarshallUpdateValues(body);
    if values.Threw? {
      h := ErrorHandler.HandleError(values.error);
      return;
    }
    Validation.ProductHasThreeProperties(body);
    UpdateExpression.BuildRoundTrip(body);
    sent := Some(UpdateItem(key.value, update));
    if reply.Threw? {
      h := ErrorHandler.HandleError(reply.error);
      return;
    }
    response := response.(body := Envelope(SUCCESS_MESSAGE, UpdateResult(reply.value)));
    h := Respond(response);
  }

  /** DELETE /products/{id}: deletes the item under the `id` path parameter, the same key the other
      handlers read and write. */
  method DeleteProduct(event: Event, reply: Outcome<StoreReply>) returns (h: Handled, sent: Option<Command>)
    ensures sent.Some? <==> event.PathParameter("id").Some?
    ensures sent.Some? ==> sent.value == DeleteItem(Key("id", event.PathParameter("id").value))
    ensures sent.None? ==> h.Rethrow?
    ensures sent.Some? && reply.Ok? ==>
      h == Respond(Response(Some(200), Envelope(SUCCESS_MESSAGE, DeleteResult(reply.value))))
    ensures sent.Some? && reply.Threw? ==> h == ErrorHandler.HandleError(reply.error)
  {
    var response := INITIAL;
    var key := ItemKey(event);
    if key.Threw? {
      h, sent := ErrorHandler.HandleError(key.error), None;
      return;
    }
    sent := Some(DeleteItem(key.value));
    if reply.Threw? {
      h := ErrorHandler.HandleError(reply.error);
      return;
    }
    response := response.(body := Envelope(SUCCESS_MESSAGE, DeleteResult(reply.value)));
    h := Respond(response);
  }

  /** A partial update such as `{price: 42}` is refused (by `UpdateProduct`, with 400) before any
      command is built, although its price is valid: the schema demands `name` and `model` on every
      update too, and those are what the errors name. */
  lemma PartialUpdateIsRefused()
    ensures !Validation.IsProduct([("price", Num(42.0))])
    ensures Validation.FieldValid(Validation.Price, [("price", Num(42.0))])
    ensures Validation.Validate([("price", Num(42.0))]).Invalid?
    ensures forall e | e in Validation.Validate([("price", Num(42.0))]).errors :: e.field != Validation.Price
  {
    assert Get([("price", Num(42.0))], "name") == None;
  }
}
