/** The product schema of src/validation.ts: `name` and `model` strict required strings, `price` a
    strict required positive integer number. */
module Validation {
  import opened Json

  datatype Field = Name | Model | Price {
    /** The property the schema reads for this field. */
    function Attribute(): string {
      match this
      case Name => "name"
      case Model => "model"
      case Price => "price"
    }
  }

  /** The schema rule a field broke. */
  datatype Rule = Required | StringType | NumberType | Positive | Integer

  /** One message of a validation error's `errors` list. */
  datatype FieldError = FieldError(field: Field, rule: Rule)

  /** What `schema.validate` does: resolve (Valid) or reject with a validation error. */
  datatype Verdict = Valid | Invalid(errors: seq<FieldError>)

  const FIELDS: seq<Field> := [Name, Model, Price]

  predicate IsInteger(x: real) {
    x.Floor as real == x
  }

  /** `yup.string().required().strict()` on one property: no cast, and "" counts as missing. */
  function StrictStringRule(v: Option<Value>): (rule: Option<Rule>)
    ensures rule.None? <==> v.Some? && v.value.Str? && v.value.s != ""
    ensures rule == Some(Required) <==> v.None? || v == Some(Null) || v == Some(Str(""))
  {
    match v
    case None => Some(Required)
    case Some(Null) => Some(Required)
    case Some(Str(s)) => if s == "" then Some(Required) else None
    case Some(_) => Some(StringType)
  }

  /** `yup.number().positive().integer().required().strict()` on one property: no cast from text. */
  function StrictPriceRule(v: Option<Value>): (rule: Option<Rule>)
    ensures rule.None? <==> v.Some? && v.value.Num? && v.value.n > 0.0 && IsInteger(v.value.n)
    ensures rule == Some(Required) <==> v.None? || v == Some(Null)
    ensures rule == Some(NumberType) <==> v.Some? && (v.value.Str? || v.value.Bool?)
  {
    match v
    case None => Some(Required)
    case Some(Null) => Some(Required)
    case Some(Num(x)) =>
      if x <= 0.0 then Some(Positive)
      else if !IsInteger(x) then Some(Integer)
      else None
    case Some(_) => Some(NumberType)
  }

  /** The rule `f` breaks in `r`, if any: none exactly when the field is as the schema demands. */
  function BrokenRule(f: Field, r: Record): (rule: Option<Rule>)
    ensures rule.None? <==> FieldValid(f, r)
  {
    var v := Get(r, f.Attribute());
    match f
    case Price => StrictPriceRule(v)
    case _ => StrictStringRule(v)
  }

  /** One message per broken field, in schema order, given the rule each field breaks, if any. */
  function Violations(fields: seq<Field>, broken: Field -> Option<Rule>): (errors: seq<FieldError>)
    ensures forall e | e in errors :: e.field in fields && broken(e.field) == Some(e.rule)
    ensures forall f | f in fields :: broken(f).Some? ==> exists e | e in errors :: e.field == f
    ensures errors == [] <==> forall f | f in fields :: broken(f).None?
  {
    if |fields| == 0 then []
    else
      var rest := Violations(fields[1..], broken);
      match broken(fields[0])
      case None => rest
      case Some(rule) => [FieldError(fields[0], rule)] + rest
  }

  /** The rule each field breaks under the strict schema. */
  function StrictRules(r: Record): Field -> Option<Rule> {
    f => BrokenRule(f, r)
  }

  /** The field as the schema demands it, stated on the value itself. */
  predicate FieldValid(f: Field, r: Record) {
    var v := Get(r, f.Attribute());
    match f
    case Price => v.Some? && v.value.Num? && v.value.n > 0.0 && IsInteger(v.value.n)
    case _ => v.Some? && v.value.Str? && v.value.s != ""
  }

  /** A product the strict schema accepts. */
  predicate IsProduct(r: Record) {
    FieldValid(Name, r) && FieldValid(Model, r) && FieldValid(Price, r)
  }

  lemma ViolationsExactlyInvalid(r: Record)
    ensures Violations(FIELDS, StrictRules(r)) == [] <==> IsProduct(r)
    ensures forall e | e in Violations(FIELDS, StrictRules(r)) :: !FieldValid(e.field, r)
  {
    assert StrictRules(r)(Name) == BrokenRule(Name, r);
    assert StrictRules(r)(Model) == BrokenRule(Model, r);
    assert StrictRules(r)(Price) == BrokenRule(Price, r);
  }

  /** `schema.validate(r)`: resolves exactly on products; otherwise the error lists only fields that
      really break the schema, and at least one. */
  function Validate(r: Record): (verdict: Verdict)
    ensures verdict.Valid? <==> IsProduct(r)
    ensures verdict.Invalid? ==> |verdict.errors| > 0
    ensures verdict.Invalid? ==> forall e | e in verdict.errors :: !FieldValid(e.field, r)
  {
    var errors := Violations(FIELDS, StrictRules(r));
    ViolationsExactlyInvalid(r);
    if |errors| == 0 then Valid else Invalid(errors)
  }

  /** Rules that agree on every field give the same messages. */
  lemma {:induction false} ViolationsCongruent(fields: seq<Field>, a: Field -> Option<Rule>, b: Field -> Option<Rule>)
    requires forall f | f in fields :: a(f) == b(f)
    ensures Violations(fields, a) == Violations(fields, b)
  {
    if |fields| > 0 {
      ViolationsCongruent(fields[1..], a, b);
    }
  }

  /** The schema reads `name`, `model` and `price` and nothing else: records that agree on those three
      get the same verdict, whatever other properties they have. */
  lemma ValidateReadsOnlySchemaFields(r: Record, r': Record)
    requires forall f: Field :: Get(r, f.Attribute()) == Get(r', f.Attribute())
    ensures Validate(r) == Validate(r')
  {
    forall f | f in FIELDS
      ensures StrictRules(r)(f) == StrictRules(r')(f)
    {
      assert Get(r, f.Attribute()) == Get(r', f.Attribute());
    }
    ViolationsCongruent(FIELDS, StrictRules(r), StrictRules(r'));
  }

  /** Setting a property the schema does not read, such as the fresh `id`, leaves the verdict as it
      was. */
  lemma ValidateIgnoresOtherProperties(r: Record, key: string, v: Value)
    requires key != "name" && key != "model" && key != "price"
    ensures Validate(Assign(r, key, v)) == Validate(r)
  {
    var r' := Assign(r, key, v);
    AssignGet(r, key, v);
    assert Get(r', "name") == Get(r, "name");
    assert Get(r', "model") == Get(r, "model");
    assert Get(r', "price") == Get(r, "price");
    ValidateReadsOnlySchemaFields(r', r);
  }

  /** The rules for `price` one by one: text, zero, negative and fractional numbers all fail. */
  lemma PriceRules(r: Record, s: string, x: real)
    ensures Get(r, "price") == Some(Str(s)) ==> Validate(r).Invalid?
    ensures Get(r, "price") == Some(Num(x)) && x <= 0.0 ==> Validate(r).Invalid?
    ensures Get(r, "price") == Some(Num(x)) && !IsInteger(x) ==> Validate(r).Invalid?
    ensures Get(r, "price") == None ==> Validate(r).Invalid?
  {
  }

  /** `name` and `model` must already be non-empty strings: a number is not cast, "" is missing. */
  lemma TextRules(r: Record, f: Field, x: real)
    requires f != Price
    ensures Get(r, f.Attribute()) == Some(Num(x)) ==> Validate(r).Invalid?
    ensures Get(r, f.Attribute()) == Some(Str("")) ==> Validate(r).Invalid?
    ensures Get(r, f.Attribute()) == None ==> Validate(r).Invalid?
  {
  }

  /** An object with `name`, `model` and `price` has at least three properties. */
  lemma {:induction false} SchemaFieldsMakeThreeProperties(r: Record)
    requires Get(r, "name").Some? && Get(r, "model").Some? && Get(r, "price").Some?
    ensures |r| >= 3
  {
    var n := Get(r, "name").value;
    var m := Get(r, "model").value;
    var p := Get(r, "price").value;
    var i :| 0 <= i < |r| && r[i] == ("name", n);
    var j :| 0 <= j < |r| && r[j] == ("model", m);
    var k :| 0 <= k < |r| && r[k] == ("price", p);
    assert i != j && j != k && i != k;
  }

  /** So a product, and with it every update body the schema accepts, has at least three properties. */
  lemma ProductHasThreeProperties(r: Record)
    requires IsProduct(r)
    ensures |r| >= 3
  {
    SchemaFieldsMakeThreeProperties(r);
  }
}
