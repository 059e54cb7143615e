/** JSON values, the JSON Schema keywords the generator emits, and what it means for a value to be
    valid under them: draft 2020-12, Core sections 10.2.1.2, 10.3.1.2, 10.3.2.1 and 10.3.2.3, and
    Validation sections 6.1.1, 6.1.2, 6.2.2, 6.2.4, 6.2.5, 6.3.1, 6.3.2, 6.4.1, 6.4.2 and 6.5.3.
    `nullable` is read as "or null"; `x-unknown-keys` is an annotation and constrains nothing. */
module JsonSchema {
  import opened Lists
  import opened Text

  datatype Json =
    | JNull
    | JBool(flag: bool)
    | JNum(number: real)
    | JStr(text: string)
    | JArr(elems: seq<Json>)
    | JObj(fields: map<string, Json>)

  datatype JsonType = TypeObject | TypeArray | TypeString | TypeNumber | TypeInteger | TypeBoolean | TypeNull

  datatype UnknownKeys = Stripped | Passthrough | Rejected

  // An absent `properties`, `required` or `anyOf` keyword is the empty collection.
  datatype Schema = Schema(
    typ: Option<JsonType>,
    enm: Option<seq<string>>,
    properties: map<string, Schema>,
    required: seq<string>,
    additional: Option<bool>,
    items: Option<Schema>,
    anyOf: seq<Schema>,
    minLength: Option<real>,
    maxLength: Option<real>,
    minItems: Option<real>,
    maxItems: Option<real>,
    minimum: Option<real>,
    maximum: Option<real>,
    exclusiveMinimum: Option<real>,
    nullable: bool,
    unknownKeys: Option<UnknownKeys>)

  // The schema `{}`.
  const ANYTHING := Schema(None, None, map[], [], None, None, [], None, None, None, None, None, None, None, false, None)

  function OfType(t: JsonType): Schema {
    ANYTHING.(typ := Some(t))
  }

  function EnumOf(values: seq<string>): Schema {
    OfType(TypeString).(enm := Some(values))
  }

  predicate IsInteger(r: real) {
    r.Floor as real == r
  }

  predicate TypeOk(typ: Option<JsonType>, v: Json) {
    match typ
    case None => true
    case Some(TypeObject) => v.JObj?
    case Some(TypeArray) => v.JArr?
    case Some(TypeString) => v.JStr?
    case Some(TypeNumber) => v.JNum?
    case Some(TypeInteger) => v.JNum? && IsInteger(v.number)
    case Some(TypeBoolean) => v.JBool?
    case Some(TypeNull) => v.JNull?
  }

  predicate AtLeast(bound: Option<real>, x: real) {
    bound.Some? ==> bound.value <= x
  }

  predicate AtMost(bound: Option<real>, x: real) {
    bound.Some? ==> x <= bound.value
  }

  // Every keyword that needs no recursion into a subschema. A string's length is its number of
  // characters (Validation section 6.3), not of code units.
  predicate ShallowOk(s: Schema, v: Json) {
    && TypeOk(s.typ, v)
    && (s.enm.Some? ==> v.JStr? && v.text in s.enm.value)
    && (match v
        case JStr(t) => AtLeast(s.minLength, |t| as real) && AtMost(s.maxLength, |t| as real)
        case JArr(es) => AtLeast(s.minItems, |es| as real) && AtMost(s.maxItems, |es| as real)
        case JNum(r) =>
          && AtLeast(s.minimum, r) && AtMost(s.maximum, r)
          && (s.exclusiveMinimum.Some? ==> s.exclusiveMinimum.value < r)
        case JObj(f) =>
          && (forall i :: 0 <= i < |s.required| ==> s.required[i] in f)
          && (s.additional == Some(false) ==> f.Keys <= s.properties.Keys)
        case _ => true)
  }

  ghost predicate Valid(s: Schema, v: Json)
    decreases s
  {
    || (s.nullable && v.JNull?)
    || (ShallowOk(s, v) && DeepOk(s, v))
  }

  ghost predicate DeepOk(s: Schema, v: Json)
    decreases s, 0
  {
    && (v.JObj? ==> forall k :: k in s.properties && k in v.fields ==> Valid(s.properties[k], v.fields[k]))
    && (v.JArr? && s.items.Some? ==> forall i :: 0 <= i < |v.elems| ==> Valid(s.items.value, v.elems[i]))
    && (s.anyOf != [] ==> exists i :: 0 <= i < |s.anyOf| && Valid(s.anyOf[i], v))
  }

  // Values on which every JSON implementation agrees: strings without supplementary characters,
  // and numbers inside the range where IEEE doubles are exact (RFC 8259 section 6).
  ghost predicate Plain(v: Json) {
    match v
    case JStr(t) => InBmp(t)
    case JNum(r) => Safe(r)
    case JArr(es) => forall i :: 0 <= i < |es| ==> Plain(es[i])
    case JObj(f) => forall k :: k in f ==> Plain(f[k])
    case _ => true
  }

  predicate Safe(r: real) {
    -9007199254740991.0 <= r <= 9007199254740991.0
  }

  lemma NullableAdmitsNull(s: Schema, v: Json)
    ensures Valid(s.(nullable := true), v) <==> v.JNull? || Valid(s, v)
  {
    var n := s.(nullable := true);
    assert DeepOk(n, v) <==> DeepOk(s, v);
    assert ShallowOk(n, v) <==> ShallowOk(s, v);
  }

  // The recursive keywords look at nothing else in the schema.
  lemma DeepDependsOn(s: Schema, t: Schema, v: Json)
    requires s.properties == t.properties && s.items == t.items && s.anyOf == t.anyOf
    ensures DeepOk(s, v) <==> DeepOk(t, v)
  {
  }
}
