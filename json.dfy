/** JSON values and objects as JSON.parse hands them to a handler. */
module Json {

  /** `undefined` (None) or a present value. */
  datatype Option<+T> = None | Some(value: T)

  /** A flat JSON value of a request body; `price` is a JavaScript number, kept as a real. */
  datatype Value = Str(s: string) | Num(n: real) | Bool(b: bool) | Null

  /** A JSON object as its own properties, in `Object.keys` order. */
  type Record = seq<(string, Value)>

  /** `Object.keys(r)`. */
  function Keys(r: Record): (keys: seq<string>)
    ensures |keys| == |r|
    ensures forall i | 0 <= i < |r| :: keys[i] == r[i].0
  {
    if |r| == 0 then [] else [r[0].0] + Keys(r[1..])
  }

  /** What JSON.parse guarantees: no key occurs twice. */
  predicate DistinctKeys(r: Record) {
    forall i, j | 0 <= i < j < |r| :: r[i].0 != r[j].0
  }

  /** An object JSON.parse can produce. */
  type Object = r: Record | DistinctKeys(r) witness []

  /** `Object.values(r)`. */
  function Values(r: Record): (values: seq<Value>)
    ensures |values| == |r|
    ensures forall i | 0 <= i < |r| :: values[i] == r[i].1
  {
    if |r| == 0 then [] else [r[0].1] + Values(r[1..])
  }

  /** `r[key]`: the value of the property, or `undefined` when there is none. */
  function Get(r: Record, key: string): (v: Option<Value>)
    ensures v.None? <==> key !in Keys(r)
    ensures v.Some? ==> (key, v.value) in r
    ensures DistinctKeys(r) ==> forall i | 0 <= i < |r| && r[i].0 == key :: v == Some(r[i].1)
  {
    if |r| == 0 then None
    else if r[0].0 == key then Some(r[0].1)
    else Get(r[1..], key)
  }

  /** `r[key] = v`: an existing property keeps its place and takes the new value; a new one goes last. */
  function Assign(r: Record, key: string, v: Value): (r': Record)
    ensures Get(r', key) == Some(v)
  {
    if |r| == 0 then [(key, v)]
    else if r[0].0 == key then [(key, v)] + r[1..]
    else [r[0]] + Assign(r[1..], key, v)
  }

  lemma {:induction false} AssignKeys(r: Record, key: string, v: Value)
    ensures Keys(Assign(r, key, v)) == if key in Keys(r) then Keys(r) else Keys(r) + [key]
  {
    if |r| > 0 && r[0].0 != key {
      AssignKeys(r[1..], key, v);
      assert key in Keys(r) <==> key in Keys(r[1..]);
    }
  }

  /** Assigning a property sets it and leaves every other property as it was. */
  lemma {:induction false} AssignGet(r: Record, key: string, v: Value)
    ensures Get(Assign(r, key, v), key) == Some(v)
    ensures forall k | k != key :: Get(Assign(r, key, v), k) == Get(r, k)
  {
    if |r| > 0 && r[0].0 != key {
      AssignGet(r[1..], key, v);
      var r' := Assign(r, key, v);
      assert r'[1..] == Assign(r[1..], key, v);
    }
  }

  /** A property in front of an object whose keys it does not share keeps the keys distinct. */
  lemma DistinctCons(p: (string, Value), r: Record)
    requires DistinctKeys(r) && p.0 !in Keys(r)
    ensures DistinctKeys([p] + r)
  {
    var r' := [p] + r;
    forall i, j | 0 <= i < j < |r'| ensures r'[i].0 != r'[j].0 {
      if i == 0 {
        assert Keys(r)[j - 1] == r'[j].0;
      }
    }
  }

  /** Assigning a property to an object keeps its keys distinct. */
  lemma {:induction false} AssignDistinct(r: Record, key: string, v: Value)
    requires DistinctKeys(r)
    ensures DistinctKeys(Assign(r, key, v))
  {
    var r' := Assign(r, key, v);
    if |r| > 0 && r[0].0 != key {
      AssignDistinct(r[1..], key, v);
      AssignKeys(r[1..], key, v);
      assert r' == [r[0]] + Assign(r[1..], key, v);
      assert r[0].0 !in Keys(r[1..]) by {
        forall i | 0 <= i < |r[1..]| ensures Keys(r[1..])[i] != r[0].0 {
          assert r[1 + i].0 != r[0].0;
        }
      }
      DistinctCons(r[0], Assign(r[1..], key, v));
    } else if |r| > 0 {
      forall i, j | 0 <= i < j < |r'| ensures r'[i].0 != r'[j].0 {
        assert r'[i].0 == r[i].0 && r'[j].0 == r[j].0;
      }
    }
  }
}
