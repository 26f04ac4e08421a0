/** The older handlers of api.js: the same five operations with a lenient schema, an inline error
    handler that answers every truthy thrown value, a `getProduct` without the 404 path, and a
    `deleteProduct` that reads its key from the `postId` path parameter. */
module LegacyApi {
  import opened Json
  import opened Exceptions
  import opened Http
  import opened Store
  import opened Validation
  import UpdateExpression
  import Decimal
  import ErrorHandler

  // The lenient schema: `string().required()` twice and `number().required()`, without `strict()`.

  /** The white space the number cast strips (the ASCII part of JavaScript's `\s`). */
  predicate IsSpace(c: char) {
    c == ' ' || c == '\t' || c == '\n' || c == '\r' || c == '\U{000B}' || c == '\U{000C}'
  }

  /** `text.replace(/\s/g, "")` */
  function WithoutSpaces(s: string): (t: string)
    ensures |t| <= |s|
    ensures forall i | 0 <= i < |t| :: !IsSpace(t[i])
    ensures |t| == |s| <==> forall i | 0 <= i < |s| :: !IsSpace(s[i])
  {
    if |s| == 0 then [] else (if IsSpace(s[0]) then [] else [s[0]]) + WithoutSpaces(s[1..])
  }

  /** Removing white space keeps exactly the characters of the text that are not white space. */
  lemma {:induction false} WithoutSpacesFilter(s: string)
    ensures forall c :: c in WithoutSpaces(s) <==> c in s && !IsSpace(c)
  {
    if |s| > 0 {
      WithoutSpacesFilter(s[1..]);
      assert s == [s[0]] + s[1..];
    }
  }

  /** The number of decimal digits at the head of s. */
  function DigitRun(s: string): (k: nat)
    ensures k <= |s|
    ensures forall i | 0 <= i < k :: '0' <= s[i] <= '9'
    ensures k == |s| || !('0' <= s[k] <= '9')
  {
    if |s| == 0 || !('0' <= s[0] <= '9') then 0 else 1 + DigitRun(s[1..])
  }

  /** Digits with at most one decimal point, and at least one digit. */
  predicate IsUnsignedDecimal(u: string) {
    var k := DigitRun(u);
    if k == |u| then k > 0
    else u[k] == '.' && DigitRun(u[k + 1..]) == |u| - k - 1 && (k > 0 || k + 1 < |u|)
  }

  /** A decimal numeral holds a digit, and nothing but digits and a point. */
  lemma UnsignedDecimalShape(u: string)
    ensures IsUnsignedDecimal(u) ==> exists i | 0 <= i < |u| :: '0' <= u[i] <= '9'
    ensures IsUnsignedDecimal(u) ==> forall i | 0 <= i < |u| :: '0' <= u[i] <= '9' || u[i] == '.'
  {
    var k := DigitRun(u);
    if IsUnsignedDecimal(u) && k < |u| {
      assert forall i | k + 1 <= i < |u| :: u[i] == u[k + 1..][i - k - 1];
      if k == 0 {
        assert '0' <= u[k + 1..][0] <= '9';
      }
    }
  }

  /** A digit left once white space is removed was a digit of the text. */
  lemma DigitSurvivesFrom(s: string)
    ensures (exists j | 0 <= j < |WithoutSpaces(s)| :: '0' <= WithoutSpaces(s)[j] <= '9') ==>
      exists i | 0 <= i < |s| :: '0' <= s[i] <= '9'
  {
    var t := WithoutSpaces(s);
    WithoutSpacesFilter(s);
    if j :| 0 <= j < |t| && '0' <= t[j] <= '9' {
      assert t[j] in t;
      var i :| 0 <= i < |s| && s[i] == t[j];
    }
  }

  /** Text the number cast turns into a number: once white space is removed, an optional sign and a
      decimal numeral. Such text holds a digit. */
  predicate IsNumericText(s: string)
    ensures IsNumericText(s) ==> exists i | 0 <= i < |s| :: '0' <= s[i] <= '9'
  {
    var t := WithoutSpaces(s);
    var signed := |t| > 0 && (t[0] == '+' || t[0] == '-');
    UnsignedDecimalShape(t);
    UnsignedDecimalShape(if signed then t[1..] else t);
    assert forall i | 1 <= i < |t| :: t[i] == t[1..][i - 1];
    DigitSurvivesFrom(s);
    if signed then IsUnsignedDecimal(t[1..]) else IsUnsignedDecimal(t)
  }

  /** Removing white space from joined texts is removing it from each. */
  lemma {:induction false} WithoutSpacesAppend(a: string, b: string)
    ensures WithoutSpaces(a + b) == WithoutSpaces(a) + WithoutSpaces(b)
  {
    if |a| > 0 {
      WithoutSpacesAppend(a[1..], b);
      var head := if IsSpace(a[0]) then [] else [a[0]];
      assert (a + b)[1..] == a[1..] + b;
      assert WithoutSpaces(a + b) == head + WithoutSpaces(a[1..] + b);
      assert WithoutSpaces(a) == head + WithoutSpaces(a[1..]);
    } else {
      assert a + b == b;
    }
  }

  /** Text without white space is kept as it is. */
  lemma {:induction false} WithoutSpacesOfSpaceless(s: string)
    requires forall i | 0 <= i < |s| :: !IsSpace(s[i])
    ensures WithoutSpaces(s) == s
  {
    if |s| > 0 {
      WithoutSpacesOfSpaceless(s[1..]);
      assert s == [s[0]] + s[1..];
    }
  }

  /** A run of digits is all digits. */
  lemma {:induction false} DigitRunOfDigits(s: string)
    requires forall i | 0 <= i < |s| :: '0' <= s[i] <= '9'
    ensures DigitRun(s) == |s|
  {
    if |s| > 0 {
      DigitRunOfDigits(s[1..]);
    }
  }

  /** A non-empty run of digits is a decimal numeral. */
  lemma DigitsAreDecimal(d: string)
    requires |d| > 0 && forall i | 0 <= i < |d| :: '0' <= d[i] <= '9'
    ensures IsUnsignedDecimal(d)
  {
    DigitRunOfDigits(d);
  }

  /** A non-empty run of digits is numeric, bare or signed. */
  lemma DigitsAreNumeric(d: string)
    requires |d| > 0 && forall i | 0 <= i < |d| :: '0' <= d[i] <= '9'
    ensures IsNumericText(d) && IsNumericText("-" + d)
  {
    DigitsAreDecimal(d);
    WithoutSpacesOfSpaceless(d);
    assert !(d[0] == '+' || d[0] == '-');
    var signed := "-" + d;
    WithoutSpacesOfSpaceless(signed);
    assert signed[0] == '-' && signed[1..] == d;
  }

  /** Padding text with spaces does not change what the number cast sees. */
  lemma PaddingIsIgnored(d: string)
    ensures WithoutSpaces(" " + d + " ") == WithoutSpaces(d)
  {
    WithoutSpacesAppend(" ", d);
    WithoutSpacesAppend(" " + d, " ");
    assert WithoutSpaces(" ") == [];
  }

  /** The decimal text of every natural number is numeric, bare, padded with spaces or signed. */
  lemma NumeralsAreNumeric(n: nat)
    ensures IsNumericText(Decimal.NatToString(n))
    ensures IsNumericText(" " + Decimal.NatToString(n) + " ")
    ensures IsNumericText("-" + Decimal.NatToString(n))
  {
    var d := Decimal.NatToString(n);
    DigitsAreNumeric(d);
    PaddingIsIgnored(d);
  }

  /** An ASCII letter no JavaScript numeral uses: not a hexadecimal digit (nor so the `e` of an
      exponent), not the `x`, `o` or `b` of a prefix, and not a letter of `Infinity`. */
  predicate IsForeignLetter(c: char) {
    ('a' <= c <= 'z' || 'A' <= c <= 'Z') && c !in "abcdefABCDEFxXoObBInity"
  }

  /** Text holding such a letter is never numeric. */
  lemma ForeignLetterIsNotNumeric(s: string, i: nat)
    requires i < |s| && IsForeignLetter(s[i])
    ensures !IsNumericText(s)
  {
    var t := WithoutSpaces(s);
    WithoutSpacesFilter(s);
    assert s[i] in s && !IsSpace(s[i]);
    assert s[i] in t;
    var j :| 0 <= j < |t| && t[j] == s[i];
    UnsignedDecimalShape(t);
    if |t| > 0 && (t[0] == '+' || t[0] == '-') {
      UnsignedDecimalShape(t[1..]);
      if j > 0 {
        assert t[j] == t[1..][j - 1];
      }
    }
  }

  /** `yup.string().required()`: a number or a boolean is cast to its (non-empty) text and passes;
      undefined, null and "" are missing. */
  function LenientStringRule(v: Option<Value>): (rule: Option<Rule>)
    ensures rule.None? <==> v.Some? && !v.value.Null? && v.value != Str("")
    ensures rule.Some? ==> rule.value == Required
  {
    match v
    case None => Some(Required)
    case Some(Null) => Some(Required)
    case Some(Str(s)) => if s == "" then Some(Required) else None
    case Some(_) => None
  }

  /** `yup.number().required()`: any number passes, and so does numeric text; no sign or integer rule. */
  function LenientPriceRule(v: Option<Value>): (rule: Option<Rule>)
    ensures rule.None? <==> v.Some? && (v.value.Num? || (v.value.Str? && IsNumericText(v.value.s)))
    ensures rule == Some(Required) <==> v.None? || v == Some(Null)
  {
    match v
    case None => Some(Required)
    case Some(Null) => Some(Required)
    case Some(Num(_)) => None
    case Some(Str(s)) => if IsNumericText(s) then None else Some(NumberType)
    case Some(Bool(_)) => Some(NumberType)
  }

  /** The rule each field breaks under the lenient schema. */
  function LenientRules(r: Record): Field -> Option<Rule> {
    f => if f == Price then LenientPriceRule(Get(r, f.Attribute())) else LenientStringRule(Get(r, f.Attribute()))
  }

  /** The field as the lenient schema demands it, stated on the value itself. */
  predicate LenientFieldValid(f: Field, r: Record) {
    var v := Get(r, f.Attribute());
    match f
    case Price => v.Some? && (v.value.Num? || (v.value.Str? && IsNumericText(v.value.s)))
    case _ => v.Some? && !v.value.Null? && v.value != Str("")
  }

  /** A product the lenient schema accepts. */
  predicate IsLenientProduct(r: Record) {
    LenientFieldValid(Name, r) && LenientFieldValid(Model, r) && LenientFieldValid(Price, r)
  }

  lemma LenientRuleExactlyInvalid(f: Field, r: Record)
    ensures LenientRules(r)(f).None? <==> LenientFieldValid(f, r)
  {
  }

  lemma LenientViolationsExactlyInvalid(r: Record)
    ensures Violations(FIELDS, LenientRules(r)) == [] <==> IsLenientProduct(r)
    ensures forall e | e in Violations(FIELDS, LenientRules(r)) :: !LenientFieldValid(e.field, r)
  {
    LenientRuleExactlyInvalid(Name, r);
    LenientRuleExactlyInvalid(Model, r);
    LenientRuleExactlyInvalid(Price, r);
  }

  /** `schema.validate(r)` with the lenient schema: resolves exactly on lenient products; otherwise the
      errors are not empty and each names a field the record really gets wrong. */
  function LenientValidate(r: Record): (verdict: Verdict)
    ensures verdict.Valid? <==> IsLenientProduct(r)
    ensures verdict.Invalid? ==> |verdict.errors| > 0
    ensures verdict.Invalid? ==> forall e | e in verdict.errors :: !LenientFieldValid(e.field, r)
  {
    var errors := Violations(FIELDS, LenientRules(r));
    LenientViolationsExactlyInvalid(r);
    if |errors| == 0 then Valid else Invalid(errors)
  }

  /** Setting a property the lenient schema does not read, such as the fresh `id`, leaves every field
      as valid or invalid as it was. */
  lemma LenientIgnoresOtherProperties(r: Record, key: string, v: Value)
    requires key != "name" && key != "model" && key != "price"
    ensures forall f: Field :: LenientFieldValid(f, Assign(r, key, v)) == LenientFieldValid(f, r)
  {
    var r' := Assign(r, key, v);
    AssignGet(r, key, v);
    assert Get(r', "name") == Get(r, "name");
    assert Get(r', "model") == Get(r, "model");
    assert Get(r', "price") == Get(r, "price");
  }

  /** Whatever the strict schema accepts, the lenient one accepts too. */
  lemma StrictImpliesLenient(r: Record)
    requires IsProduct(r)
    ensures IsLenientProduct(r)
  {
  }

  lemma SpacedFortyTwoIsNumeric()
    ensures IsNumericText(" 42")
  {
    DigitsAreNumeric("42");
    WithoutSpacesAppend(" ", "42");
    assert WithoutSpaces(" ") == [];
    assert WithoutSpaces(" 42") == WithoutSpaces("42");
  }

  /** The lenient schema accepts text for `price` and a number for `model`, which the strict schema
      refuses; the record is kept as sent, so the text " 42" is what would be stored. */
  lemma LenientAcceptsTextPrice()
    ensures var r := [("name", Str("Phone")), ("model", Num(7.0)), ("price", Str(" 42"))];
      IsLenientProduct(r) && !IsProduct(r)
  {
    SpacedFortyTwoIsNumeric();
  }

  /** The lenient schema accepts a negative, fractional price, which the strict schema refuses. */
  lemma LenientAcceptsAnyNumber()
    ensures var r := [("name", Str("Phone")), ("model", Str("X")), ("price", Num(-1.5))];
      IsLenientProduct(r) && !IsProduct(r)
  {
  }

  /** A lenient product also has at least three properties. */
  lemma LenientProductHasThreeProperties(r: Record)
    requires IsLenientProduct(r)
    ensures |r| >= 3
  {
    SchemaFieldsMakeThreeProperties(r);
  }

  // The inline error handler.

  /** The older `handleError`: a validation error is a 400 with its errors; any other truthy value is
      answered with its own `statusCode` (undefined if it has none), message and stack; a falsy value
      is re-thrown. */
  function LegacyHandleError(e: Thrown): (h: Handled)
    ensures h.Rethrow? <==> e.Falsy?
    ensures h.Rethrow? ==> h.error == e
    ensures h.Respond? ==> h.response.body.Envelope? && h.response.body.message == FAILURE_MESSAGE
    ensures e.ValidationError? ==>
      h.Respond? && h.response.statusCode == Some(400) && h.response.body.payload == Errors(e.errors)
    ensures e.HttpError? ==>
      h.Respond? && h.response.statusCode == Some(e.statusCode)
      && h.response.body.payload == ErrorDetail(Some(e.message), Some(e.stack))
    ensures e.Other? ==>
      h.Respond? && h.response.statusCode == e.ownStatusCode
      && h.response.body.payload == ErrorDetail(e.ownMessage, e.ownStack)
  {
    match e
    case ValidationError(errors) => Respond(Response(Some(400), Envelope(FAILURE_MESSAGE, Errors(errors))))
    case HttpError(status, message, stack) =>
      Respond(Response(Some(status), Envelope(FAILURE_MESSAGE, ErrorDetail(Some(message), Some(stack)))))
    case Other(status, message, stack) =>
      Respond(Response(status, Envelope(FAILURE_MESSAGE, ErrorDetail(message, stack))))
    case Falsy => Rethrow(e)
  }

  /** The two error handlers answer alike except on truthy values that are no validation error and
      no `HttpError`: the typed one re-throws those, the older one answers them. */
  lemma HandlersDifferOnlyOnOtherTruthyValues(e: Thrown)
    ensures LegacyHandleError(e) == ErrorHandler.HandleError(e) <==> !e.Other?
  {
  }

  // The handlers.

  /** `event.pathParameters.<name>`: reading it from null path parameters throws a `TypeError`, which
      has no status code; otherwise it is the parameter, or undefined. */
  function PathParameter(event: Event, name: string): (p: Outcome<Option<string>>)
    ensures p.Threw? <==> event.pathParameters.None?
    ensures p.Ok? ==> p.value == event.PathParameter(name)
    ensures p.Threw? ==> p.error.Other? && p.error.ownStatusCode.None?
  {
    if event.pathParameters.None? then Threw(PropertyOfNothing("null", name)) else Ok(event.PathParameter(name))
  }

  /** `marshall({ <name>: event.pathParameters.<name> })`: the key under `name` exactly when the
      request has that path parameter; otherwise a thrown value the older error handler answers with
      no status code. */
  function PathKey(event: Event, name: string): (k: Outcome<Key>)
    ensures k.Ok? <==> event.PathParameter(name).Some?
    ensures k.Ok? ==> k.value == Key(name, event.PathParameter(name).value)
    ensures k.Threw? ==> LegacyHandleError(k.error).Respond? && LegacyHandleError(k.error).response.statusCode == None
  {
    match PathParameter(event, name)
    case Threw(e) => Threw(e)
    case Ok(v) => MarshallKey(name, v)
  }

  /** A 400 "Failed;(" response whose `errors` are not empty and each name a field `r` really gets
      wrong under the lenient schema. */
  predicate IsLenientRejection(h: Handled, r: Record) {
    && h.Respond? && h.response.statusCode == Some(400)
    && h.response.body.Envelope? && h.response.body.message == FAILURE_MESSAGE
    && h.response.body.payload.Errors? && |h.response.body.payload.errors| > 0
    && forall e | e in h.response.body.payload.errors :: !LenientFieldValid(e.field, r)
  }

  /** The items under "Success!!;)"; a scan without `Items` is answered with no status code at all. */
  method GetAllProducts(reply: Outcome<ScanOutput>) returns (h: Handled, sent: Option<Command>)
    ensures sent == Some(Scan)
    ensures reply.Ok? && reply.value.items.Some? ==>
      h == Respond(Response(Some(200), Envelope(LIST_MESSAGE, Data(reply.value.items.value))))
    ensures reply.Ok? && reply.value.items.None? ==>
      h.Respond? && h.response.statusCode == None && h == LegacyHandleError(ITEMS_UNDEFINED)
    ensures reply.Threw? ==> h == LegacyHandleError(reply.error)
  {
    var response := INITIAL;
    sent := Some(Scan);
    if reply.Threw? {
      h := LegacyHandleError(reply.error);
      return;
    }
    if reply.value.items.None? {
      h := LegacyHandleError(ITEMS_UNDEFINED);
      return;
    }
    response := response.(body := Envelope(LIST_MESSAGE, Data(reply.value.items.value)));
    h := Respond(response);
  }

  /** The fresh id overwrites the caller's, every other property is kept as sent (so text such as "42"
      is stored as text), and only a lenient product whose other numbers are safe integers is put; an
      unsafe number makes `marshall` throw, which is answered with no status code. */
  method CreateProduct(event: Event, productId: string, reply: Outcome<StoreReply>)
    returns (h: Handled, sent: Option<Command>)
    ensures sent.Some? <==>
      event.body.Ok? && IsLenientProduct(event.body.value) && MarshallableBesides(event.body.value, "id")
    ensures sent.Some? ==> sent.value.PutItem? && DistinctKeys(sent.value.item)
    ensures sent.Some? ==> Get(sent.value.item, "id") == Some(Str(productId))
    ensures sent.Some? ==> forall k | k != "id" :: Get(sent.value.item, k) == Get(event.body.value, k)
    ensures event.body.Threw? ==> h == LegacyHandleError(event.body.error)
    ensures event.body.Ok? && !IsLenientProduct(event.body.value) ==> IsLenientRejection(h, event.body.value)
    ensures event.body.Ok? && IsLenientProduct(event.body.value) && !MarshallableBesides(event.body.value, "id")
      ==> h.Respond? && h.response.statusCode == None
    ensures sent.Some? && reply.Ok? ==>
      h == Respond(Response(Some(200), Envelope(SUCCESS_MESSAGE, PutResult(reply.value))))
    ensures sent.Some? && reply.Threw? ==> h == LegacyHandleError(reply.error)
  {
    var response := INITIAL;
    sent := None;
    if event.body.Threw? {
      h := LegacyHandleError(event.body.error);
      return;
    }
    var productRequest := event.body.value;
    productRequest := Assign(productRequest, "id", Str(productId));
    SetStringProperty(event.body.value, "id", productId);
    LenientIgnoresOtherProperties(event.body.value, "id", Str(productId));
    var verdict := LenientValidate(productRequest);
    if verdict.Invalid? {
      h := LegacyHandleError(ValidationError(verdict.errors));
      return;
    }
    var item := MarshallItem(productRequest);
    if item.Threw? {
      h := LegacyHandleError(item.error);
      return;
    }
    sent := Some(PutItem(item.value));
    if reply.Threw? {
      h := LegacyHandleError(reply.error);
      return;
    }
    response := response.(body := Envelope(SUCCESS_MESSAGE, PutResult(reply.value)));
    h := Respond(response);
  }

  /** Always 200 with "Success;)" once the store answers: the item, or `{}` when there is none. */
  method GetProduct(event: Event, reply: Outcome<GetOutput>) returns (h: Handled, sent: Option<Command>)
    ensures sent.Some? <==> PathKey(event, "id").Ok?
    ensures sent.Some? ==> sent.value == GetItem(PathKey(event, "id").value)
    ensures sent.None? ==> h == LegacyHandleError(PathKey(event, "id").error)
    ensures sent.Some? && reply.Ok? ==>
      h == Respond(Response(Some(200), Envelope(SUCCESS_MESSAGE,
        Item(if reply.value.item.Some? then reply.value.item.value else []))))
    ensures sent.Some? && reply.Threw? ==> h == LegacyHandleError(reply.error)
  {
    var response := INITIAL;
    var key := PathKey(event, "id");
    if key.Threw? {
      h, sent := LegacyHandleError(key.error), None;
      return;
    }
    sent := Some(GetItem(key.value));
    if reply.Threw? {
      h := LegacyHandleError(reply.error);
      return;
    }
    var item := reply.value.item;
    response := response.(body := Envelope(SUCCESS_MESSAGE, Item(if item.Some? then item.value else [])));
    h := Respond(response);
  }

  /** The same builder as the typed handler, behind the lenient schema: the update sent is the
      instruction built from the body, and it reads back as exactly the body. A number beyond the safe
      integers makes the values `marshall` throw, which is answered with no status code. */
  method UpdateProduct(event: Event, reply: Outcome<StoreReply>) returns (h: Handled, sent: Option<Command>)
    ensures sent.Some? <==>
      event.body.Ok? && IsLenientProduct(event.body.value) && PathKey(event, "id").Ok? && Marshallable(event.body.value)
    ensures sent.Some? ==>
      sent.value == UpdateItem(PathKey(event, "id").value, UpdateExpression.Build(event.body.value))
    ensures sent.Some? ==> UpdateExpression.Decode(sent.value.update) == Some(event.body.value)
    ensures sent.Some? ==> |UpdateExpression.ParseExpression(sent.value.update.expression).value| >= 3
    ensures event.body.Threw? ==> h == LegacyHandleError(event.body.error)
    ensures event.body.Ok? && !IsLenientProduct(event.body.value) ==> IsLenientRejection(h, event.body.value)
    ensures event.body.Ok? && IsLenientProduct(event.body.value) && PathKey(event, "id").Threw? ==>
      h == LegacyHandleError(PathKey(event, "id").error)
    ensures (event.body.Ok? && IsLenientProduct(event.body.value) && PathKey(event, "id").Ok?
      && !Marshallable(event.body.value)) ==> h.Respond? && h.response.statusCode == None
    ensures sent.Some? && reply.Ok? ==>
      h == Respond(Response(Some(200), Envelope(SUCCESS_MESSAGE, UpdateResult(reply.value))))
    ensures sent.Some? && reply.Threw? ==> h == LegacyHandleError(reply.error)
  {
    var response := INITIAL;
    sent := None;
    if event.body.Threw? {
      h := LegacyHandleError(event.body.error);
      return;
    }
    var body := event.body.value;
    var verdict := LenientValidate(body);
    if verdict.Invalid? {
      h := LegacyHandleError(ValidationError(verdict.errors));
      return;
    }
    var key := PathKey(event, "id");
    if key.Threw? {
      h := LegacyHandleError(key.error);
      return;
    }
    var update := UpdateExpression.Build(body);
    var values := MarshallUpdateValues(body);
    if values.Threw? {
      h := LegacyHandleError(values.error);
      return;
    }
    LenientProductHasThreeProperties(body);
    UpdateExpression.BuildRoundTrip(body);
    sent := Some(UpdateItem(key.value, update));
    if reply.Threw? {
      h := LegacyHandleError(reply.error);
      return;
    }
    response := response.(body := Envelope(SUCCESS_MESSAGE, UpdateResult(reply.value)));
    h := Respond(response);
  }

  /** Deletes under the key attribute `postId`, read from the `postId` path parameter. */
  method DeleteProduct(event: Event, reply: Outcome<StoreReply>) returns (h: Handled, sent: Option<Command>)
    ensures sent.Some? <==> PathKey(event, "postId").Ok?
    ensures sent.Some? ==> sent.value == DeleteItem(PathKey(event, "postId").value)
    ensures sent.Some? ==> sent.value.key.attribute == "postId"
    ensures sent.None? ==> h == LegacyHandleError(PathKey(event, "postId").error)
    ensures sent.Some? && reply.Ok? ==>
      h == Respond(Response(Some(200), Envelope(SUCCESS_MESSAGE, DeleteResult(reply.value))))
    ensures sent.Some? && reply.Threw? ==> h == LegacyHandleError(reply.error)
  {
    var response := INITIAL;
    var key := PathKey(event, "postId");
    if key.Threw? {
      h, sent := LegacyHandleError(key.error), None;
      return;
    }
    sent := Some(DeleteItem(key.value));
    if reply.Threw? {
      h := LegacyHandleError(reply.error);
      return;
    }
    response := response.(body := Envelope(SUCCESS_MESSAGE, DeleteResult(reply.value)));
    h := Respond(response);
  }

  /** For a request on the product route, whose only path parameter is `id`, the older handlers read
      and write the item under `id`, but the delete finds no `postId`: `marshall` throws before any
      command is sent, and the answer has no status code. */
  lemma DeleteKeyMismatch(body: Outcome<Object>, id: string)
    ensures var event := Event(body, Some(map["id" := id]));
      && PathKey(event, "id") == Ok(Key("id", id))
      && PathKey(event, "postId").Threw?
      && LegacyHandleError(PathKey(event, "postId").error).Respond?
      && LegacyHandleError(PathKey(event, "postId").error).response.statusCode == None
  {
    var event := Event(body, Some(map["id" := id]));
    assert "postId" !in event.pathParameters.value;
  }
}
