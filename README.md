# products-crud in Dafny

A model of the serverless "products" CRUD service. The service has five AWS Lambda handlers
(list, create, get, update, delete) over one DynamoDB table. They come in two variants:
the typed one in `src/` and an older one in `api.js`.

The model covers three pieces:

- **The partial-update builder.** `updateProduct` turns the request body into three things:
  - a `SET #key0 = :value0, ...` expression;
  - a names map;
  - a values map.

  The model builds all three exactly as the source does, and adds a parser and a resolver that
  read the instruction back. The round trip is proved: for every non-empty body, the instruction
  reads back as that body, key by key, in `Object.keys` order. Also proved: every placeholder is
  bound, every binding is used, and the placeholders are pairwise distinct. Distinctness rests on
  decimal rendering of the indices being injective.
- **The product schema.** `name` and `model` are required strict strings, and `price` is a
  required strict positive integer number. The model states, on the values themselves, exactly
  which records the schema accepts. The older, lenient schema is modelled too, and is proved to
  accept strictly more.
- **The error handlers.** A thrown value is classified as a validation error (400), an
  `HttpError` (its own status), or anything else (re-thrown by the typed handler). The older
  handler answers every truthy value and re-throws only falsy ones.

The handlers themselves are methods: each mutates a local `response`, as the source does. A
handler takes these inputs:

- the outcome of `JSON.parse` on the body;
- the path parameters;
- the freshly generated id (create only);
- the store's answer to the one command it sends.

It returns two things: what it ends with (a response, or a value it throws on) and the command it
sent, if any. Their contracts prove the following:

- `createProduct` overwrites any caller-supplied `id` and keeps every other property.
- Validation runs before any write: no command is sent unless the body is valid.
- `marshall` throws on a number beyond `Number.MAX_SAFE_INTEGER` (either sign). Such a body is
  never written: the typed handlers throw on, the older ones answer with no status code.
- The typed `getProduct` answers 404 exactly when the store has no item; the older one answers 200
  with `{}`.
- The update command sent, by either handler, always reads back as the body, with at least three
  terms.
- Every failure goes through the error handler.

Modules, one per file:

- `Json`: values, objects as ordered key/value lists, `Object.keys`, property read and property
  assignment.
- `Decimal`: the `${index}` rendering.
- `Validation`: `src/validation.ts`.
- `UpdateExpression`: the builder, the parser and the resolver.
- `Exceptions`: thrown values.
- `Store`: commands and store answers.
- `Http`: events and responses.
- `ErrorHandler`: `src/errorHandler.ts`.
- `Api`: `src/api.ts`.
- `LegacyApi`: `api.js`.

Two consequences of the code:

- The schema requires `name`, `model` and `price` on every update, so a partial update such as
  `{price: 42}` is refused with 400 (`Api.PartialUpdateIsRefused`).
- `schema.validate` stops at the first failing field by default, so the model promises only a
  non-empty list of genuine violations.

## Model

| member | source | states |
|---|---|---|
| Json.Keys | src/api.ts:87 | `Object.keys(body)`: one key per property, the i-th key being the i-th property's name |
| Json.Get | src/api.ts:106 | `body[key]` is undefined exactly when the key is absent; the value it returns is one of the object's own entries, and with distinct keys it is the value stored under that key |
| Json.Values | src/api.ts:102-110 | the values of an object, one per property, the i-th being the i-th property's value |
| Json.Assign | src/api.ts:38 | after `productRequest.id = productId`, reading `id` gives the new value |
| Json.AssignGet | src/api.ts:38 | `productRequest.id = productId` makes `id` read back as the new value and leaves every other property as it was |
| Json.AssignKeys | src/api.ts:38 | assignment keeps an existing property in its place and appends a new one at the end of the key order |
| Json.AssignDistinct | src/api.ts:38 | assignment keeps the object's keys distinct |
| Decimal.NatToString | src/api.ts:93 | the `${index}` text is a non-empty run of decimal digits with no leading zero |
| Decimal.DigitsValueOfNatToString | src/api.ts:93 | the rendered digits denote the index again (the rendering's inverse) |
| Decimal.NatToStringInjective | src/api.ts:93 | two indices render alike exactly when they are equal |
| Validation.Violations | src/validation.ts:3-7 | the error list holds only fields that break their rule, holds every field that breaks one, and is empty exactly when no field breaks its rule |
| Validation.StrictStringRule | src/validation.ts:4-5 | a strict required string passes exactly when the value is a non-empty string; undefined, null and "" break `required`, anything else the string type |
| Validation.StrictPriceRule | src/validation.ts:6 | a strict required positive integer passes exactly when the value is a number above zero with no fraction; undefined and null break `required`, text and booleans the number type |
| Validation.BrokenRule | src/validation.ts:4-6 | a field breaks no strict rule exactly when its value is a non-empty string (name, model) or a positive integer number (price) |
| Validation.ViolationsExactlyInvalid | src/validation.ts:3-7 | the schema's error list is empty exactly on products, and names only fields that are really wrong |
| Validation.Validate | src/validation.ts:3-7 | `schema.validate` resolves exactly on records with non-empty string `name` and `model` and a positive integer number `price`; otherwise it rejects with a non-empty list of genuine violations |
| Validation.ValidateReadsOnlySchemaFields | src/validation.ts:3-7 | the verdict depends only on `name`, `model` and `price`: extra properties such as `id` change nothing |
| Validation.ValidateIgnoresOtherProperties | src/api.ts:37-39 | setting a property the schema does not read, such as the fresh `id`, leaves the verdict unchanged |
| Validation.PriceRules | src/validation.ts:6 | text (such as "42"), zero or negative numbers, fractional numbers and a missing price are all refused |
| Validation.TextRules | src/validation.ts:4-5 | a number is not cast to a string, "" counts as missing, and a missing name or model is refused |
| Validation.SchemaFieldsMakeThreeProperties | src/validation.ts:4-6 | an object with `name`, `model` and `price` has at least three properties |
| Validation.ProductHasThreeProperties | src/validation.ts:4-6 | a valid product has at least three properties, so an empty update body never reaches the builder |
| UpdateExpression.PlaceholdersDistinct | src/api.ts:92-110 | `#key{i}` and `#key{j}` are equal exactly when i = j, likewise `:value{i}`, and no name placeholder is a value placeholder |
| UpdateExpression.NameIsFresh | src/api.ts:95-101 | the name placeholder of index n is none of those of smaller indices |
| UpdateExpression.ValueIsFresh | src/api.ts:102-110 | the value placeholder of index n is none of those of smaller indices |
| UpdateExpression.Expression | src/api.ts:92-94 | the SET expression parses to one `#key{i} = :value{i}` term per key, in key order, and an empty key list gives no parsable expression |
| UpdateExpression.TermsParse | src/api.ts:92-94 | the n terms joined by ", " parse back to the n placeholder pairs |
| UpdateExpression.Build | src/api.ts:87-111 | the instruction's names map and values map hold exactly one placeholder of each kind per key of the body |
| UpdateExpression.ValuesInOrder | src/api.ts:102-110 | the values map read in insertion order, `:value0` first, one value per index |
| UpdateExpression.ValuesInOrderOfBuild | src/api.ts:102-110 | the built values map, read in insertion order, is the body's values in key order |
| UpdateExpression.NamesReduce | src/api.ts:95-101 | the names map's domain is exactly `#key0 .. #key(n-1)` |
| UpdateExpression.NamesReduceCount | src/api.ts:95-101 | the names map has exactly one entry per key |
| UpdateExpression.NamesReduceAt | src/api.ts:95-101 | the names map sends `#key{i}` to the i-th key |
| UpdateExpression.ValuesReduce | src/api.ts:102-110 | the values map's domain is exactly `:value0 .. :value(n-1)` |
| UpdateExpression.ValuesReduceCount | src/api.ts:102-110 | the values map has exactly one entry per key |
| UpdateExpression.ValuesReduceAt | src/api.ts:102-110 | the values map sends `:value{i}` to the i-th property's value |
| UpdateExpression.ValuesAreLookups | src/api.ts:106 | with distinct keys, `:value{i}` is bound to `body[key_i]` |
| UpdateExpression.PlaceholderShape | src/api.ts:93 | each placeholder is its sigil followed by word characters, so a parser can find where it ends |
| UpdateExpression.ParseJoined | src/api.ts:92-94 | terms `#name = :value` joined by ", " parse back to the list of their placeholder pairs, in order |
| UpdateExpression.BuildRoundTrip | src/api.ts:87-111 | for a non-empty body, the expression is "SET " and one `#key{i} = :value{i}` term per key in key order, and resolving the terms through the two maps gives back the body, key by key with its value, in order |
| UpdateExpression.AssignmentNames | src/api.ts:92-101 | the name placeholders of the terms are exactly `#key0 .. #key(n-1)` |
| UpdateExpression.AssignmentValues | src/api.ts:92-110 | the value placeholders of the terms are exactly `:value0 .. :value(n-1)` |
| UpdateExpression.AssignmentsDistinct | src/api.ts:92-94 | no two terms share a name placeholder or a value placeholder |
| UpdateExpression.PlaceholdersBound | src/api.ts:92-110 | every placeholder in the expression is bound in its map, every binding is used by a term, and the terms' placeholders are pairwise distinct |
| UpdateExpression.EmptyBodyIsMalformed | src/api.ts:92-94 | an empty body would give the bare "SET ", which is no update expression |
| Http.Event.PathParameter | src/api.ts:60 | `event.pathParameters?.id` is defined exactly when there are path parameters holding the name, and is then that parameter |
| Store.MarshallKey | src/api.ts:63 | the key marshals exactly when its value is defined, with that attribute and value; otherwise `marshall` throws an error with no status code |
| Store.MarshallValues | src/api.ts:102-110 | `marshall` converts a list of values exactly when none is a number beyond the safe integers, and then keeps them; otherwise it throws the error of the first such number |
| Store.MarshallItem | src/api.ts:42 | `marshall(item)` succeeds exactly on marshallable objects, keeping them, and otherwise throws an error with no status code |
| Store.AssignStringMarshallable | src/api.ts:37-42 | after setting `id` to a string, the item marshals exactly when every property other than `id` does, whatever `id` held before |
| Store.SetStringProperty | src/api.ts:37-42 | `productRequest.id = productId` keeps the keys distinct, sets `id`, leaves the rest, and makes the item marshallable exactly when its other properties are |
| Store.MarshallValuesOfObject | src/api.ts:102-110 | marshalling an object's values fails exactly when the object is not marshallable, with an error that has no status code |
| Store.MarshallUpdateValues | src/api.ts:102-110 | `marshall` of the built values map fails exactly when the body is not marshallable, with an error that has no status code |
| ErrorHandler.HandleError | src/errorHandler.ts:4-25 | exactly one of three outcomes: a validation error gives 400 with its errors; an `HttpError` keeps its own status, message and stack; anything else is re-thrown unchanged; every response says "Failed;(" |
| Api.ItemKey | src/api.ts:60-63 | the key is `id` with the path's id exactly when the path has one; otherwise `marshall` throws, and `handleError` throws that on |
| Api.GetAllProducts | src/api.ts:15-29 | a scan is sent; its items come back under "Success!!;)" with 200; a scan without items and a failing scan go through `handleError` |
| Api.CreateProduct | src/api.ts:31-53 | a put is sent exactly when the body parses, is a valid product and has no number beyond the safe integers outside `id`; the item put has distinct keys, the fresh id as `id` and every other property of the body unchanged; an invalid body gives 400 with genuine violations and no write; an unsafe number is thrown on with no write; the put's outcome is answered with 200 or through `handleError` |
| Api.GetProduct | src/api.ts:55-77 | a get under key `id` is sent exactly when the path has an id; once the store answers, the status is 404 exactly when there is no item: 404 with "Failed;(" and "Product doesn't exist", otherwise 200 with "Success;)" and the item |
| Api.UpdateProduct | src/api.ts:79-122 | an update is sent exactly when the body is a valid product, the path has an id and the body has no number beyond the safe integers; the instruction is the one built from the body, reads back as exactly the body and has at least three terms; an invalid body gives 400 and no write; a missing id or an unsafe number is thrown on |
| Api.DeleteProduct | src/api.ts:124-145 | a delete under key `id` is sent exactly when the path has an id; its outcome is answered with 200 and "Success;)" or through `handleError` |
| Api.PartialUpdateIsRefused | src/api.ts:86 | the body `{price: 42}` is no product although its price is valid, so validation rejects it, and every error names `name` or `model`, never `price` |
| LegacyApi.WithoutSpaces | api.js:16 | the number cast's white-space removal leaves no white space, and changes the text exactly when it holds some |
| LegacyApi.WithoutSpacesFilter | api.js:16 | white-space removal keeps exactly the characters of the text that are not white space |
| LegacyApi.WithoutSpacesAppend | api.js:16 | removing white space from joined texts is removing it from each |
| LegacyApi.WithoutSpacesOfSpaceless | api.js:16 | text without white space is kept as it is |
| LegacyApi.DigitRun | api.js:16 | the length of the longest run of digits at the head of the text |
| LegacyApi.DigitRunOfDigits | api.js:16 | a text of digits is one run of digits |
| LegacyApi.UnsignedDecimalShape | api.js:16 | a decimal numeral holds a digit, and only digits and a point |
| LegacyApi.IsNumericText | api.js:16 | text the number cast accepts holds a digit |
| LegacyApi.DigitSurvivesFrom | api.js:16 | a digit left once white space is removed was a digit of the text |
| LegacyApi.DigitsAreDecimal | api.js:16 | a non-empty run of digits is a decimal numeral |
| LegacyApi.DigitsAreNumeric | api.js:16 | a non-empty run of digits is numeric text, bare or with a minus sign |
| LegacyApi.PaddingIsIgnored | api.js:16 | spaces around a text do not change what the number cast sees |
| LegacyApi.NumeralsAreNumeric | api.js:16 | the decimal text of every natural number is numeric, bare, padded with spaces or signed |
| LegacyApi.ForeignLetterIsNotNumeric | api.js:16 | text holding an ASCII letter that no JavaScript numeral uses is never numeric |
| LegacyApi.LenientStringRule | api.js:14-15 | a non-strict required string passes exactly when the value is present, not null and not ""; a number or boolean is cast and passes |
| LegacyApi.LenientPriceRule | api.js:16 | a non-strict required number passes exactly on a number or numeric text; undefined and null break `required` |
| LegacyApi.LenientRuleExactlyInvalid | api.js:14-16 | under the lenient schema a field breaks no rule exactly when it is present, not null and not "" (name, model), or a number or numeric text (price) |
| LegacyApi.LenientViolationsExactlyInvalid | api.js:13-17 | the lenient error list is empty exactly on lenient products and names only fields that are really wrong |
| LegacyApi.LenientValidate | api.js:13-17 | the lenient `schema.validate` resolves exactly on lenient products; otherwise it rejects with a non-empty list of genuine violations |
| LegacyApi.LenientIgnoresOtherProperties | api.js:40-42 | setting a property the lenient schema does not read, such as the fresh `id`, leaves every field as valid as it was |
| LegacyApi.StrictImpliesLenient | api.js:13-17 | every record the strict schema accepts, the lenient one accepts too |
| LegacyApi.SpacedFortyTwoIsNumeric | api.js:16 | the text " 42" is numeric text for the number cast |
| LegacyApi.LenientAcceptsTextPrice | api.js:13-17 | a record with price " 42" and a numeric model passes the lenient schema but not the strict one |
| LegacyApi.LenientAcceptsAnyNumber | api.js:16 | a negative, fractional price passes the lenient schema but not the strict one |
| LegacyApi.LenientProductHasThreeProperties | api.js:13-17 | a lenient product has at least three properties, so the older update never builds from an empty body |
| LegacyApi.LegacyHandleError | api.js:138-159 | a validation error gives 400 with its errors; any other truthy value gives its own `statusCode` (undefined if it has none), `errorMsg` and `errorStack`; a falsy value is re-thrown unchanged; every response says "Failed;(" |
| LegacyApi.HandlersDifferOnlyOnOtherTruthyValues | api.js:138-159 | the two error handlers agree exactly on validation errors, `HttpError`s and falsy values, and differ on every other truthy value |
| LegacyApi.PathParameter | api.js:62 | `event.pathParameters.id` throws a `TypeError` with no status code exactly when the path parameters are null, and is otherwise the parameter or undefined |
| LegacyApi.PathKey | api.js:62 | the key under the name exactly when the path has that parameter; otherwise a thrown value the older handler answers with no status code |
| LegacyApi.GetAllProducts | api.js:19-33 | a scan is sent; its items come back under "Success!!;)"; a scan without items is answered with no status code at all |
| LegacyApi.CreateProduct | api.js:35-55 | a put is sent exactly when the body is a lenient product with no number beyond the safe integers outside `id`; the item has distinct keys, the fresh id and every other property as sent, uncast; an invalid body gives 400 and no write; an unsafe number is answered with no status code and no write |
| LegacyApi.GetProduct | api.js:57-74 | once the store answers, the status is always 200 with "Success;)", and the data is the item or `{}` |
| LegacyApi.UpdateProduct | api.js:76-116 | an update is sent exactly when the body is a lenient product, the key marshals and the body has no number beyond the safe integers; the instruction is the same one the typed builder makes, and it reads back as exactly the body, with at least three terms; an unsafe number is answered with no status code |
| LegacyApi.DeleteProduct | api.js:118-136 | a delete is sent exactly when a `postId` path parameter exists, and its key attribute is `postId` |
| LegacyApi.DeleteKeyMismatch | api.js:124 | on the product route, with only `id` in the path, the older get and update key by `id`, but the delete throws before sending anything and is answered without a status code |

## Left out

- Sending commands to DynamoDB is network I/O. A handler takes the store's answer, or the failure
  it throws, as an input, and returns the command it would send.
- `marshall`/`unmarshall` are treated as the identity on flat JSON values, except where `marshall`
  throws: on a key with an undefined value, and on a number beyond `Number.MAX_SAFE_INTEGER` or
  below `Number.MIN_SAFE_INTEGER`. Nested objects, arrays, sets and `marshall`'s options are not
  modelled.
- `uuid4()` is a parameter (`productId`).
- JSON text is not modelled. `JSON.parse` is an input outcome: an object with distinct keys
  (`Json.Object`), or the error it threw. Bodies that parse to something other than an object
  (null, a number, an array) are not modelled. Response bodies are the objects given to `JSON.stringify`.
- The wording of library error messages is not modelled: yup's messages, `marshall`'s message and
  the `TypeError` texts. They are representative strings; `marshall`'s number message leaves out
  the number's own text. Stack traces are opaque strings.
- The model does not fix how many messages yup puts in `e.errors`. By default it aborts at the
  first failure; the model promises a non-empty list of genuine violations.
- Properties outside the schema are not modelled beyond yup ignoring them.
- JavaScript number semantics are not modelled. `price` is a real: NaN and Infinity do not
  exist, and there is no floating-point rounding.
- `Object.keys` ordering of integer-like keys is not modelled. Keys are kept in insertion order.
- Only the ASCII white space of `\s` is modelled.
- LegacyApi.IsNumericText: accepts an optional sign and a plain decimal numeral. It leaves out
  exponents, hexadecimal, binary and octal prefixes, and "Infinity", which JavaScript's number
  cast also accepts.
- The table name (`process.env.DYNAMODB_TABLE_NAME`), `async`/`await`, and the `console.log` in
  the older `getProduct` are not modelled.
- `databaseSetup.ts` only constructs the SDK client.
- The typed `getProduct` checks for a missing `result`. The store always answers with an object,
  so that check is not modelled.

## Findings

| source | as written | input that shows it | evidently intended | confidence | as-written member | corrected member |
|---|---|---|---|---|---|---|
| api.js:124 | the older `deleteProduct` reads the `postId` path parameter and deletes under key attribute `postId`; create, get and update use `id` | DELETE on the product route with path parameters `{id: "p1"}`: `marshall({postId: undefined})` throws, nothing is deleted, and the answer has no status code | delete the item under key `id` = "p1", as get and update do | not executed | LegacyApi.DeleteKeyMismatch | Api.DeleteProduct |
