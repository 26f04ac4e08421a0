/** The DynamoDB table as the handlers see it: the command each one sends, and what `send` resolves
    with. Sending is I/O and is not modelled; a handler takes the store's answer as an input. */
module Store {
  import opened Json
  import opened Exceptions
  import UpdateExpression

  /** A one-attribute primary key, `marshall({[attribute]: value})`. */
  datatype Key = Key(attribute: string, value: string)

  /** The command a handler sends (its `TableName` is the same for all and is left out). */
  datatype Command =
    | Scan
    | PutItem(item: Record)
    | GetItem(key: Key)
    | UpdateItem(key: Key, update: UpdateExpression.UpdateInstruction)
    | DeleteItem(key: Key)

  /** The output object of a write, which a handler passes on untouched. */
  datatype StoreReply = StoreReply(output: Record)

  /** The output of a scan: its `Items`, which the SDK may leave undefined. */
  datatype ScanOutput = ScanOutput(items: Option<seq<Record>>)

  /** `Items.map(...)` on an undefined `Items`. */
  const ITEMS_UNDEFINED := PropertyOfNothing("undefined", "map")

  /** The output of a get: its `Item`, undefined when no item has the key. */
  datatype GetOutput = GetOutput(item: Option<Record>)

  const UNDEFINED_VALUE_MESSAGE := "Pass options.removeUndefinedValues=true to remove undefined values from map/array/set."

  /** `marshall({[attribute]: value})`: an undefined value makes `marshall` throw a plain `Error`, which
      has no status code. */
  function MarshallKey(attribute: string, value: Option<string>): (k: Outcome<Key>)
    ensures k.Ok? <==> value.Some?
    ensures k.Ok? ==> k.value.attribute == attribute && k.value.value == value.value
    ensures k.Threw? ==> k.error.Other? && k.error.ownStatusCode.None? && k.error.ownMessage.Some?
  {
    match value
    case None => Threw(ErrorObject("Error", UNDEFINED_VALUE_MESSAGE))
    case Some(v) => Ok(Key(attribute, v))
  }

  /** `Number.MAX_SAFE_INTEGER`, 2^53 - 1; `Number.MIN_SAFE_INTEGER` is its negation. */
  const MAX_SAFE_INTEGER: real := 9007199254740991.0

  /** A value `marshall` converts: anything but a number beyond the safe integers. */
  predicate IsSafeValue(v: Value) {
    v.Num? ==> -MAX_SAFE_INTEGER <= v.n <= MAX_SAFE_INTEGER
  }

  /** An object every one of whose properties `marshall` converts. */
  predicate Marshallable(r: Record) {
    forall i | 0 <= i < |r| :: IsSafeValue(r[i].1)
  }

  const NUMBER_TOO_LARGE_MESSAGE := "Number is greater than Number.MAX_SAFE_INTEGER. Use BigInt."
  const NUMBER_TOO_SMALL_MESSAGE := "Number is lesser than Number.MIN_SAFE_INTEGER. Use BigInt."

  /** The plain `Error` `marshall` throws on a number beyond the safe integers. */
  function UnsafeNumberError(x: real): Thrown {
    ErrorObject("Error", if x > MAX_SAFE_INTEGER then NUMBER_TOO_LARGE_MESSAGE else NUMBER_TOO_SMALL_MESSAGE)
  }

  /** `marshall` of an object's values, one after the other: it converts them all, or throws on the
      first number beyond the safe integers. A string, a boolean or null always converts, and the
      conversion of a safe value is left implicit (the value is kept). */
  function MarshallValues(vs: seq<Value>): (m: Outcome<seq<Value>>)
    ensures m.Ok? <==> forall i | 0 <= i < |vs| :: IsSafeValue(vs[i])
    ensures m.Ok? ==> m.value == vs
    ensures m.Threw? ==> exists i | 0 <= i < |vs| ::
      && !IsSafeValue(vs[i]) && m.error == UnsafeNumberError(vs[i].n)
      && forall j | 0 <= j < i :: IsSafeValue(vs[j])
  {
    if |vs| == 0 then Ok([])
    else if !IsSafeValue(vs[0]) then Threw(UnsafeNumberError(vs[0].n))
    else
      match MarshallValues(vs[1..])
      case Threw(e) =>
        var i :| 0 <= i < |vs[1..]| && !IsSafeValue(vs[1..][i]) && e == UnsafeNumberError(vs[1..][i].n)
          && forall j | 0 <= j < i :: IsSafeValue(vs[1..][j]);
        assert !IsSafeValue(vs[i + 1]) && forall j | 0 <= j < i + 1 :: IsSafeValue(vs[j]);
        Threw(e)
      case Ok(rest) => Ok([vs[0]] + rest)
  }

  /** `marshall(item)`: the item, or the error of its first number beyond the safe integers. */
  function MarshallItem(r: Record): (m: Outcome<Record>)
    ensures m.Ok? <==> Marshallable(r)
    ensures m.Ok? ==> m.value == r
    ensures m.Threw? ==> m.error.Other? && m.error.ownStatusCode.None? && m.error.ownMessage.Some?
  {
    match MarshallValues(Values(r))
    case Ok(_) => Ok(r)
    case Threw(e) => Threw(e)
  }

  /** Every property other than `key` is one `marshall` converts. */
  predicate MarshallableBesides(r: Record, key: string) {
    forall i | 0 <= i < |r| && r[i].0 != key :: IsSafeValue(r[i].1)
  }

  /** A property in front of the others is converted as its own value dictates. */
  lemma MarshallableCons(p: (string, Value), r: Record)
    ensures Marshallable([p] + r) <==> IsSafeValue(p.1) && Marshallable(r)
  {
    if IsSafeValue(p.1) && Marshallable(r) {
      forall i | 0 <= i < |[p] + r| ensures IsSafeValue(([p] + r)[i].1) {
        if i > 0 { assert ([p] + r)[i] == r[i - 1]; }
      }
    }
    if Marshallable([p] + r) {
      assert ([p] + r)[0] == p;
      forall i | 0 <= i < |r| ensures IsSafeValue(r[i].1) {
        assert ([p] + r)[i + 1] == r[i];
      }
    }
  }

  /** The first property of an object counts unless it is `key`. */
  lemma MarshallableBesidesHead(r: Record, key: string)
    requires |r| > 0
    ensures MarshallableBesides(r, key) <==>
      (r[0].0 != key ==> IsSafeValue(r[0].1)) && MarshallableBesides(r[1..], key)
  {
    assert forall i | 0 <= i < |r| - 1 :: r[1..][i] == r[i + 1];
    if (r[0].0 != key ==> IsSafeValue(r[0].1)) && MarshallableBesides(r[1..], key) {
      forall i | 0 <= i < |r| && r[i].0 != key ensures IsSafeValue(r[i].1) {
        if i > 0 { assert r[i] == r[1..][i - 1]; }
      }
    }
  }

  /** Setting a property of an object to a string makes it marshallable exactly when all its other
      properties are: whatever the property held before no longer matters. */
  lemma {:induction false} AssignStringMarshallable(r: Record, key: string, s: string)
    requires DistinctKeys(r)
    ensures Marshallable(Assign(r, key, Str(s))) <==> MarshallableBesides(r, key)
  {
    var r' := Assign(r, key, Str(s));
    if |r| == 0 {
      assert Marshallable(r') by { assert r' == [(key, Str(s))]; }
    } else {
      var tail := r[1..];
      assert forall i | 0 <= i < |tail| :: tail[i] == r[i + 1];
      MarshallableBesidesHead(r, key);
      if r[0].0 == key {
        assert r' == [(key, Str(s))] + tail;
        MarshallableCons((key, Str(s)), tail);
        assert forall i | 0 <= i < |tail| :: tail[i].0 != key by {
          forall i | 0 <= i < |tail| ensures tail[i].0 != key {
            assert r[0].0 != r[i + 1].0;
          }
        }
      } else {
        AssignStringMarshallable(tail, key, s);
        assert r' == [r[0]] + Assign(tail, key, Str(s));
        MarshallableCons(r[0], Assign(tail, key, Str(s)));
      }
    }
  }

  /** `r[key] = s` on a parsed object, as a handler about to marshall it sees it: the keys stay
      distinct, the property holds the string, every other property is unchanged, and the object is
      marshallable exactly when its other properties are. */
  lemma SetStringProperty(r: Object, key: string, s: string)
    ensures var r' := Assign(r, key, Str(s));
      && DistinctKeys(r')
      && Get(r', key) == Some(Str(s))
      && (forall k | k != key :: Get(r', k) == Get(r, k))
      && (Marshallable(r') <==> MarshallableBesides(r, key))
  {
    AssignGet(r, key, Str(s));
    AssignDistinct(r, key, Str(s));
    AssignStringMarshallable(r, key, s);
  }

  /** `marshall` of an object's values in key order fails exactly when the object is not
      marshallable, with a value that has no status code. */
  lemma MarshallValuesOfObject(r: Record)
    ensures MarshallValues(Values(r)).Ok? <==> Marshallable(r)
    ensures MarshallValues(Values(r)).Threw? ==>
      MarshallValues(Values(r)).error.Other? && MarshallValues(Values(r)).error.ownStatusCode.None?
  {
    var m := MarshallValues(Values(r));
    if m.Threw? {
      var i :| 0 <= i < |r| && !IsSafeValue(Values(r)[i]) && m.error == UnsafeNumberError(Values(r)[i].n);
    }
  }

  /** `marshall` of the `ExpressionAttributeValues` of the update built from `body`: it walks the
      values map in the order the entries were added, so it fails exactly when the body is not
      marshallable, with a value that has no status code. */
  function MarshallUpdateValues(body: Record): (m: Outcome<seq<Value>>)
    ensures m.Ok? <==> Marshallable(body)
    ensures m.Threw? ==> m.error.Other? && m.error.ownStatusCode.None?
  {
    UpdateExpression.ValuesInOrderOfBuild(body);
    MarshallValuesOfObject(body);
    MarshallValues(UpdateExpression.ValuesInOrder(UpdateExpression.Build(body), |body|))
  }
}
