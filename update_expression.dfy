/** The partial-update instruction `updateProduct` builds from a request body: the `SET` expression
    with one `#key{i} = :value{i}` term per body key, the names map and the values map. A small parser
    for the expression and a resolver through the two maps read the instruction back. */
module UpdateExpression {
  import opened Json
  import Decimal

  /** `#key${index}` */
  function NamePlaceholder(i: nat): string {
    "#key" + Decimal.NatToString(i)
  }

  /** `:value${index}` */
  function ValuePlaceholder(i: nat): string {
    ":value" + Decimal.NatToString(i)
  }

  /** Placeholders of distinct indices differ, and no name placeholder is a value placeholder. */
  lemma PlaceholdersDistinct(i: nat, j: nat)
    ensures NamePlaceholder(i) == NamePlaceholder(j) <==> i == j
    ensures ValuePlaceholder(i) == ValuePlaceholder(j) <==> i == j
    ensures NamePlaceholder(i) != ValuePlaceholder(j)
  {
    assert NamePlaceholder(i)[4..] == Decimal.NatToString(i);
    assert NamePlaceholder(j)[4..] == Decimal.NatToString(j);
    assert ValuePlaceholder(i)[6..] == Decimal.NatToString(i);
    assert ValuePlaceholder(j)[6..] == Decimal.NatToString(j);
    Decimal.NatToStringInjective(i, j);
    assert NamePlaceholder(i)[0] == '#' && ValuePlaceholder(j)[0] == ':';
  }

  /** The name placeholder of index n is none of those of the smaller indices. */
  lemma NameIsFresh(n: nat)
    ensures forall i: nat | i < n :: NamePlaceholder(i) != NamePlaceholder(n)
  {
    forall i: nat | i < n
      ensures NamePlaceholder(i) != NamePlaceholder(n)
    {
      PlaceholdersDistinct(i, n);
    }
  }

  /** The value placeholder of index n is none of those of the smaller indices. */
  lemma ValueIsFresh(n: nat)
    ensures forall i: nat | i < n :: ValuePlaceholder(i) != ValuePlaceholder(n)
  {
    forall i: nat | i < n
      ensures ValuePlaceholder(i) != ValuePlaceholder(n)
    {
      PlaceholdersDistinct(i, n);
    }
  }

  /** `#key${index} = :value${index}` */
  function Term(i: nat): string {
    NamePlaceholder(i) + " = " + ValuePlaceholder(i)
  }

  /** `parts.join(separator)` */
  function Join(parts: seq<string>, separator: string): string {
    if |parts| == 0 then ""
    else if |parts| == 1 then parts[0]
    else parts[0] + separator + Join(parts[1..], separator)
  }

  /** `objKeys.map((_, index) => Term(index))` for n keys. */
  function TermList(n: nat): seq<string> {
    seq(n, i requires 0 <= i < n => Term(i))
  }

  /** `SET ${objKeys.map((_, index) => Term(index)).join(", ")}`: a SET expression with one term per
      key, pairing the i-th name and value placeholders, exactly when there is a key at all. */
  function Expression(keys: seq<string>): (e: string)
    ensures |keys| > 0 ==> ParseExpression(e) == Some(Assignments(|keys|))
    ensures |keys| == 0 ==> ParseExpression(e) == None
  {
    var e := "SET " + Join(TermList(|keys|), ", ");
    assert e[..4] == "SET " && e[4..] == Join(TermList(|keys|), ", ");
    if |keys| > 0 then TermsParse(|keys|); e else e
  }

  /** `objKeys.reduce((acc, key, index) => ({...acc, [`#key${index}`]: key}), {})` over the first n
      keys: its domain is exactly the name placeholders of indices 0 .. n-1. */
  function NamesReduce(keys: seq<string>, n: nat): (names: map<string, string>)
    requires n <= |keys|
    ensures names.Keys == set i: nat | i < n :: NamePlaceholder(i)
  {
    if n == 0 then map[]
    else NamesReduce(keys, n - 1)[NamePlaceholder(n - 1) := keys[n - 1]]
  }

  /** The names map has exactly one entry per key. */
  lemma {:induction false} NamesReduceCount(keys: seq<string>, n: nat)
    requires n <= |keys|
    ensures |NamesReduce(keys, n)| == n
  {
    if n > 0 {
      NamesReduceCount(keys, n - 1);
      NameIsFresh(n - 1);
      assert NamePlaceholder(n - 1) !in NamesReduce(keys, n - 1).Keys;
    }
  }

  /** The names map sends the i-th name placeholder to the i-th key. */
  lemma {:induction false} NamesReduceAt(keys: seq<string>, n: nat, i: nat)
    requires i < n <= |keys|
    ensures NamesReduce(keys, n)[NamePlaceholder(i)] == keys[i]
  {
    if i < n - 1 {
      NamesReduceAt(keys, n - 1, i);
      PlaceholdersDistinct(i, n - 1);
    }
  }

  /** `objKeys.reduce((acc, key, index) => ({...acc, [`:value${index}`]: body[key]}), {})` over the first
      n entries (body[key] of the index-th key is the index-th entry's value, keys being distinct):
      its domain is exactly the value placeholders of indices 0 .. n-1. */
  function ValuesReduce(body: Record, n: nat): (values: map<string, Value>)
    requires n <= |body|
    ensures values.Keys == set i: nat | i < n :: ValuePlaceholder(i)
  {
    if n == 0 then map[]
    else ValuesReduce(body, n - 1)[ValuePlaceholder(n - 1) := body[n - 1].1]
  }

  /** The values map has exactly one entry per key. */
  lemma {:induction false} ValuesReduceCount(body: Record, n: nat)
    requires n <= |body|
    ensures |ValuesReduce(body, n)| == n
  {
    if n > 0 {
      ValuesReduceCount(body, n - 1);
      ValueIsFresh(n - 1);
      assert ValuePlaceholder(n - 1) !in ValuesReduce(body, n - 1).Keys;
    }
  }

  /** The values map sends the i-th value placeholder to the i-th key's value. */
  lemma {:induction false} ValuesReduceAt(body: Record, n: nat, i: nat)
    requires i < n <= |body|
    ensures ValuesReduce(body, n)[ValuePlaceholder(i)] == body[i].1
  {
    if i < n - 1 {
      ValuesReduceAt(body, n - 1, i);
      PlaceholdersDistinct(i, n - 1);
    }
  }

  /** With distinct keys, as JSON.parse gives them, the i-th value placeholder is bound to `body[key]`
      for the i-th key: the value the object holds under that key. */
  lemma ValuesAreLookups(body: Record, i: nat)
    requires DistinctKeys(body) && i < |body|
    ensures ValuesReduce(body, |body|)[ValuePlaceholder(i)] == Get(body, Keys(body)[i]).value
  {
    ValuesReduceAt(body, |body|, i);
  }

  /** The `UpdateExpression`, `ExpressionAttributeNames` and `ExpressionAttributeValues` parameters
      (the values before `marshall`). */
  datatype UpdateInstruction = UpdateInstruction(
    expression: string,
    names: map<string, string>,
    values: map<string, Value>)

  /** The instruction for a body: one name and one value placeholder per key, each map with exactly
      one entry per key. */
  function Build(body: Record): (u: UpdateInstruction)
    ensures u.names.Keys == set i: nat | i < |body| :: NamePlaceholder(i)
    ensures u.values.Keys == set i: nat | i < |body| :: ValuePlaceholder(i)
    ensures |u.names| == |body| && |u.values| == |body|
  {
    var keys := Keys(body);
    NamesReduceCount(keys, |keys|);
    ValuesReduceCount(body, |keys|);
    UpdateInstruction(Expression(keys), NamesReduce(keys, |keys|), ValuesReduce(body, |keys|))
  }

  /** The values map's entries in the order they were added, `:value0` first: the order in which
      `marshall` converts them. */
  function ValuesInOrder(u: UpdateInstruction, n: nat): (vs: seq<Value>)
    requires forall i: nat | i < n :: ValuePlaceholder(i) in u.values
    ensures |vs| == n
    ensures forall i | 0 <= i < n :: vs[i] == u.values[ValuePlaceholder(i)]
  {
    seq(n, i requires 0 <= i < n => u.values[ValuePlaceholder(i)])
  }

  /** Values bound by the reduce over a body, taken in order, are the body's values in key order. */
  lemma ValuesInOrderOfReduce(body: Record, u: UpdateInstruction)
    requires u.values == ValuesReduce(body, |body|)
    ensures forall i: nat | i < |body| :: ValuePlaceholder(i) in u.values
    ensures ValuesInOrder(u, |body|) == Values(body)
  {
    forall i: nat | i < |body|
      ensures ValuePlaceholder(i) in u.values
    {
      assert ValuePlaceholder(i) in u.values.Keys;
    }
    var vs := ValuesInOrder(u, |body|);
    forall i | 0 <= i < |body|
      ensures vs[i] == Values(body)[i]
    {
      ValuesReduceAt(body, |body|, i);
    }
  }

  /** The values of a built instruction, taken in order, are the body's values in key order. */
  lemma ValuesInOrderOfBuild(body: Record)
    ensures forall i: nat | i < |body| :: ValuePlaceholder(i) in Build(body).values
    ensures ValuesInOrder(Build(body), |body|) == Values(body)
  {
    ValuesInOrderOfReduce(body, Build(body));
  }

  // Reading an instruction back.

  /** One `#name = :value` term of a SET expression. */
  datatype Assignment = Assignment(name: string, value: string)

  predicate IsWordChar(c: char) {
    'a' <= c <= 'z' || 'A' <= c <= 'Z' || '0' <= c <= '9' || c == '_'
  }

  /** The length of the longest prefix of word characters. */
  function WordLength(s: string): (k: nat)
    ensures k <= |s|
  {
    if |s| == 0 || !IsWordChar(s[0]) then 0 else 1 + WordLength(s[1..])
  }

  /** A placeholder at the head of s: the sigil and one or more word characters; with what follows. */
  function ParsePlaceholder(s: string, sigil: char): (r: Option<(string, string)>)
    ensures r.Some? ==> r.value.0 + r.value.1 == s && |r.value.0| > 0
  {
    if |s| > 0 && s[0] == sigil && WordLength(s[1..]) > 0 then
      var k := 1 + WordLength(s[1..]);
      assert s[..k] + s[k..] == s;
      Some((s[..k], s[k..]))
    else None
  }

  /** A term `#name = :value` at the head of s, with what follows. */
  function ParseAssignment(s: string): (r: Option<(Assignment, string)>)
    ensures r.Some? ==> |r.value.1| < |s|
  {
    match ParsePlaceholder(s, '#')
    case None => None
    case Some((name, rest)) =>
      if |rest| >= 3 && rest[..3] == " = " then
        match ParsePlaceholder(rest[3..], ':')
        case None => None
        case Some((value, rest')) => Some((Assignment(name, value), rest'))
      else None
  }

  /** One or more terms separated by ", " and nothing after them. */
  function ParseAssignments(s: string): Option<seq<Assignment>>
    decreases |s|
  {
    match ParseAssignment(s)
    case None => None
    case Some((a, rest)) =>
      if rest == "" then Some([a])
      else if |rest| >= 2 && rest[..2] == ", " then
        match ParseAssignments(rest[2..])
        case None => None
        case Some(more) => Some([a] + more)
      else None
  }

  /** A SET expression: "SET " and one or more terms. */
  function ParseExpression(s: string): Option<seq<Assignment>> {
    if |s| >= 4 && s[..4] == "SET " then ParseAssignments(s[4..]) else None
  }

  /** The attribute name and the new value each term stands for, looked up in the two maps. */
  function Resolve(assignments: seq<Assignment>, names: map<string, string>, values: map<string, Value>)
    : Option<Record>
  {
    if |assignments| == 0 then Some([])
    else if assignments[0].name in names && assignments[0].value in values then
      match Resolve(assignments[1..], names, values)
      case None => None
      case Some(rest) => Some([(names[assignments[0].name], values[assignments[0].value])] + rest)
    else None
  }

  /** What an instruction asks the store to set, in order; None if it is malformed or has an unbound
      placeholder. */
  function Decode(u: UpdateInstruction): Option<Record> {
    match ParseExpression(u.expression)
    case None => None
    case Some(assignments) => Resolve(assignments, u.names, u.values)
  }

  /** The assignments of indices 0 .. n-1, as the builder pairs the placeholders. */
  function Assignments(n: nat): seq<Assignment> {
    seq(n, k requires 0 <= k < n => Assignment(NamePlaceholder(k), ValuePlaceholder(k)))
  }

  lemma {:induction false} WordLengthOf(w: string, rest: string)
    requires forall i | 0 <= i < |w| :: IsWordChar(w[i])
    requires rest == [] || !IsWordChar(rest[0])
    ensures WordLength(w + rest) == |w|
    decreases |w|
  {
    if |w| > 0 {
      assert (w + rest)[1..] == w[1..] + rest;
      WordLengthOf(w[1..], rest);
    } else {
      assert w + rest == rest;
    }
  }

  /** A placeholder with the given sigil: the sigil and one or more word characters. */
  predicate IsPlaceholder(p: string, sigil: char) {
    |p| > 1 && p[0] == sigil && forall i | 1 <= i < |p| :: IsWordChar(p[i])
  }

  lemma PlaceholderShape(i: nat)
    ensures IsPlaceholder(NamePlaceholder(i), '#')
    ensures IsPlaceholder(ValuePlaceholder(i), ':')
  {
    var d := Decimal.NatToString(i);
    assert forall k | 4 <= k < |NamePlaceholder(i)| :: NamePlaceholder(i)[k] == d[k - 4];
    assert forall k | 6 <= k < |ValuePlaceholder(i)| :: ValuePlaceholder(i)[k] == d[k - 6];
  }

  lemma ParsePlaceholderOf(sigil: char, p: string, rest: string)
    requires IsPlaceholder(p, sigil)
    requires rest == [] || !IsWordChar(rest[0])
    ensures ParsePlaceholder(p + rest, sigil) == Some((p, rest))
  {
    var s := p + rest;
    assert s[1..] == p[1..] + rest;
    WordLengthOf(p[1..], rest);
    assert s[..|p|] == p;
    assert s[|p|..] == rest;
  }

  /** `#name = :value` followed by the end or a comma parses back to its two placeholders. */
  lemma ParseAssignmentOf(name: string, value: string, rest: string)
    requires IsPlaceholder(name, '#') && IsPlaceholder(value, ':')
    requires rest == [] || rest[0] == ','
    ensures ParseAssignment(name + " = " + value + rest) == Some((Assignment(name, value), rest))
  {
    var afterName := " = " + value + rest;
    assert name + " = " + value + rest == name + afterName;
    ParsePlaceholderOf('#', name, afterName);
    assert afterName[..3] == " = ";
    assert afterName[3..] == value + rest;
    ParsePlaceholderOf(':', value, rest);
  }

  lemma ParseAssignmentsLast(s: string, a: Assignment)
    requires ParseAssignment(s) == Some((a, ""))
    ensures ParseAssignments(s) == Some([a])
  {
  }

  lemma ParseAssignmentsCons(head: string, a: Assignment, tail: string, more: seq<Assignment>)
    requires ParseAssignment(head + (", " + tail)) == Some((a, ", " + tail))
    requires ParseAssignments(tail) == Some(more)
    ensures ParseAssignments(head + (", " + tail)) == Some([a] + more)
  {
    assert (", " + tail)[..2] == ", " && (", " + tail)[2..] == tail;
  }

  /** `name = value` for each pair of placeholders. */
  function Terms(names: seq<string>, values: seq<string>): (parts: seq<string>)
    requires |names| == |values|
    ensures |parts| == |names|
  {
    seq(|names|, k requires 0 <= k < |names| => names[k] + " = " + values[k])
  }

  /** The assignment of each pair of placeholders. */
  function Pairs(names: seq<string>, values: seq<string>): (asgs: seq<Assignment>)
    requires |names| == |values|
    ensures |asgs| == |names|
  {
    seq(|names|, k requires 0 <= k < |names| => Assignment(names[k], values[k]))
  }

  /** Each string is a placeholder with the given sigil. */
  predicate AllPlaceholders(ps: seq<string>, sigil: char) {
    forall k | 0 <= k < |ps| :: IsPlaceholder(ps[k], sigil)
  }

  /** A term of two placeholders, a comma and terms that parse: all of them parse. */
  lemma ParseAssignmentsStep(name: string, value: string, tail: string, more: seq<Assignment>)
    requires IsPlaceholder(name, '#') && IsPlaceholder(value, ':')
    requires ParseAssignments(tail) == Some(more)
    ensures ParseAssignments(name + " = " + value + (", " + tail)) == Some([Assignment(name, value)] + more)
  {
    ParseAssignmentOf(name, value, ", " + tail);
    ParseAssignmentsCons(name + " = " + value, Assignment(name, value), tail, more);
  }

  lemma JoinTerms(names: seq<string>, values: seq<string>)
    requires |names| == |values| > 1
    ensures Join(Terms(names, values), ", ")
      == names[0] + " = " + values[0] + (", " + Join(Terms(names[1..], values[1..]), ", "))
  {
    assert Terms(names, values)[1..] == Terms(names[1..], values[1..]);
  }

  lemma PairsCons(names: seq<string>, values: seq<string>)
    requires |names| == |values| > 0
    ensures Pairs(names, values) == [Assignment(names[0], values[0])] + Pairs(names[1..], values[1..])
  {
  }

  /** Terms of placeholders joined by ", " parse back to their assignments. */
  lemma {:induction false} ParseJoined(names: seq<string>, values: seq<string>)
    requires |names| == |values| > 0
    requires AllPlaceholders(names, '#') && AllPlaceholders(values, ':')
    ensures ParseAssignments(Join(Terms(names, values), ", ")) == Some(Pairs(names, values))
  {
    assert IsPlaceholder(names[0], '#') && IsPlaceholder(values[0], ':');
    if |names| == 1 {
      var part := names[0] + " = " + values[0];
      ParseAssignmentOf(names[0], values[0], "");
      assert part + "" == part;
      ParseAssignmentsLast(part, Assignment(names[0], values[0]));
      assert Terms(names, values)[0] == part;
      assert Pairs(names, values) == [Assignment(names[0], values[0])];
    } else {
      ParseJoined(names[1..], values[1..]);
      JoinTerms(names, values);
      ParseAssignmentsStep(names[0], values[0], Join(Terms(names[1..], values[1..]), ", "), Pairs(names[1..], values[1..]));
      PairsCons(names, values);
    }
  }

  /** Assignments whose placeholders are bound to the entries of a body, in order, resolve to it. */
  lemma {:induction false} ResolveEach(
    asgs: seq<Assignment>, names: map<string, string>, values: map<string, Value>, body: Record)
    requires |asgs| == |body|
    requires forall k | 0 <= k < |asgs| :: asgs[k].name in names && names[asgs[k].name] == body[k].0
    requires forall k | 0 <= k < |asgs| :: asgs[k].value in values && values[asgs[k].value] == body[k].1
    ensures Resolve(asgs, names, values) == Some(body)
  {
    if |asgs| > 0 {
      ResolveEach(asgs[1..], names, values, body[1..]);
      assert body == [(body[0].0, body[0].1)] + body[1..];
    }
  }

  /** The terms of indices 0 .. n-1 joined by ", " parse back to the assignments of those indices. */
  lemma TermsParse(n: nat)
    requires n > 0
    ensures ParseAssignments(Join(TermList(n), ", ")) == Some(Assignments(n))
  {
    var names := seq(n, k requires 0 <= k < n => NamePlaceholder(k));
    var values := seq(n, k requires 0 <= k < n => ValuePlaceholder(k));
    forall k | 0 <= k < n
      ensures IsPlaceholder(names[k], '#') && IsPlaceholder(values[k], ':')
    {
      PlaceholderShape(k);
    }
    ParseJoined(names, values);
    assert Pairs(names, values) == Assignments(n) by {
      forall k | 0 <= k < n ensures Pairs(names, values)[k] == Assignments(n)[k] { }
    }
    assert Terms(names, values) == TermList(n) by {
      forall k | 0 <= k < n ensures Terms(names, values)[k] == TermList(n)[k] { }
    }
  }

  /** The instruction built from a non-empty body reads back as exactly that body: the expression
      parses to one `#key{i} = :value{i}` term per key in key order, and resolving those terms through
      the names and values maps gives each key with its value, in order. */
  lemma BuildRoundTrip(body: Record)
    requires |body| > 0
    ensures ParseExpression(Build(body).expression) == Some(Assignments(|body|))
    ensures Decode(Build(body)) == Some(body)
  {
    var n := |body|;
    var u := Build(body);
    var asgs := Assignments(n);
    forall k | 0 <= k < n
      ensures asgs[k].name in u.names && u.names[asgs[k].name] == body[k].0
      ensures asgs[k].value in u.values && u.values[asgs[k].value] == body[k].1
    {
      NamesReduceAt(Keys(body), n, k);
      ValuesReduceAt(body, n, k);
    }
    ResolveEach(asgs, u.names, u.values, body);
  }

  lemma AssignmentNames(n: nat)
    ensures (set a | a in Assignments(n) :: a.name) == set i: nat | i < n :: NamePlaceholder(i)
  {
    var asgs := Assignments(n);
    forall k: nat | k < n
      ensures NamePlaceholder(k) in set a | a in asgs :: a.name
    {
      assert asgs[k].name == NamePlaceholder(k);
    }
  }

  lemma AssignmentValues(n: nat)
    ensures (set a | a in Assignments(n) :: a.value) == set i: nat | i < n :: ValuePlaceholder(i)
  {
    var asgs := Assignments(n);
    forall k: nat | k < n
      ensures ValuePlaceholder(k) in set a | a in asgs :: a.value
    {
      assert asgs[k].value == ValuePlaceholder(k);
    }
  }

  lemma AssignmentsDistinct(n: nat)
    ensures forall p, q | 0 <= p < q < n ::
      Assignments(n)[p].name != Assignments(n)[q].name && Assignments(n)[p].value != Assignments(n)[q].value
  {
    forall p, q | 0 <= p < q < n
      ensures Assignments(n)[p].name != Assignments(n)[q].name && Assignments(n)[p].value != Assignments(n)[q].value
    {
      PlaceholdersDistinct(p, q);
    }
  }

  /** Every placeholder the expression uses is bound in its map, every binding is used, and the
      placeholders of the terms are pairwise distinct. */
  lemma PlaceholdersBound(body: Record)
    requires |body| > 0
    ensures ParseExpression(Build(body).expression).Some?
    ensures var asgs := ParseExpression(Build(body).expression).value;
      && (set a | a in asgs :: a.name) == Build(body).names.Keys
      && (set a | a in asgs :: a.value) == Build(body).values.Keys
      && forall p, q | 0 <= p < q < |asgs| :: asgs[p].name != asgs[q].name && asgs[p].value != asgs[q].value
  {
    BuildRoundTrip(body);
    AssignmentNames(|body|);
    AssignmentValues(|body|);
    AssignmentsDistinct(|body|);
  }

  /** An empty body gives the bare "SET ", which is no SET expression. */
  lemma EmptyBodyIsMalformed()
    ensures Build([]).expression == "SET "
    ensures Decode(Build([])) == None
  {
    assert Build([]).expression[4..] == "";
  }
}
