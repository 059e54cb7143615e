/** TypeScript type nodes, the values they describe, and the syntactic translation of a type node
    into a schema under a map from a helper's type parameters to its call's type arguments. */
module TypeNodes {
  import opened Lists
  import opened JsonSchema

  // A meaning says of a present JSON value, or of an absent one (None), whether it is accepted.
  type Meaning = Option<Json> -> bool

  datatype TypeNode =
    | StringKeyword
    | NumberKeyword
    | BooleanKeyword
    | NullLiteral
    | UndefinedKeyword
    | StringLiteral(value: string)
    | Union(members: seq<TypeNode>)
    | Array(element: TypeNode)
    | TypeLiteral(signatures: seq<Signature>)
    | Reference(name: string, named: Meaning)  // a named type, or a type parameter in scope
    | OtherType(means: Meaning)                // parenthesised, function, intersection types, ...

  datatype Signature =
    | Property(name: string, typ: Option<TypeNode>, question: bool)
    | OtherSignature

  type TypeParams = map<string, TypeNode>
  type TypeMeanings = map<string, Meaning>

  // ----- the values a type node describes -----

  ghost predicate AcceptsType(t: TypeNode, env: TypeMeanings, v: Option<Json>)
    decreases t
  {
    match t
    case StringKeyword => v.Some? && v.value.JStr?
    case NumberKeyword => v.Some? && v.value.JNum?
    case BooleanKeyword => v.Some? && v.value.JBool?
    case NullLiteral => v == Some(JNull)
    case UndefinedKeyword => v == None
    case StringLiteral(s) => v == Some(JStr(s))
    case Union(members) => exists i :: 0 <= i < |members| && AcceptsType(members[i], env, v)
    case Array(element) =>
      && v.Some? && v.value.JArr?
      && forall i :: 0 <= i < |v.value.elems| ==> AcceptsType(element, env, Some(v.value.elems[i]))
    case TypeLiteral(sigs) =>
      && v.Some? && v.value.JObj?
      && forall i :: 0 <= i < |sigs| && sigs[i].Property? ==> AcceptsProperty(sigs[i], env, v.value.fields)
    case Reference(name, named) => if name in env then env[name](v) else named(v)
    case OtherType(means) => means(v)
  }

  ghost predicate AcceptsProperty(p: Signature, env: TypeMeanings, fields: map<string, Json>)
    requires p.Property?
    decreases p
  {
    if p.name in fields then p.typ.Some? ==> AcceptsType(p.typ.value, env, Some(fields[p.name]))
    else p.question
  }

  // ----- the translation -----

  predicate IsNullish(t: TypeNode) {
    t.NullLiteral? || t.UndefinedKeyword?
  }

  function NonNull(members: seq<TypeNode>): (r: seq<TypeNode>)
    ensures r != [] ==> exists i :: 0 <= i < |members| && members[i] == r[0]
  {
    if members == [] then []
    else if IsNullish(members[0]) then NonNull(members[1..])
    else [members[0]] + NonNull(members[1..])
  }

  predicate AllLiterals(members: seq<TypeNode>) {
    forall i :: 0 <= i < |members| ==> members[i].StringLiteral?
  }

  function LiteralValues(members: seq<TypeNode>): seq<string>
    requires AllLiterals(members)
  {
    seq(|members|, i requires 0 <= i < |members| => members[i].value)
  }

  function TypeToSchema(t: TypeNode, params: TypeParams): Schema
    decreases params != map[], t, 1
  {
    match t
    case Union(members) =>
      var base := UnionBase(members, params);
      if |NonNull(members)| != |members| then base.(nullable := true) else base
    case Array(element) => OfType(TypeArray).(items := Some(TypeToSchema(element, params)))
    case TypeLiteral(sigs) =>
      OfType(TypeObject).(properties := PropertySchemas(sigs, params), required := RequiredNames(sigs))
    case Reference(name, _) => if name in params then TypeToSchema(params[name], map[]) else ANYTHING
    case StringKeyword => OfType(TypeString)
    case NumberKeyword => OfType(TypeNumber)
    case BooleanKeyword => OfType(TypeBoolean)
    case StringLiteral(s) => EnumOf([s])
    case _ => ANYTHING
  }

  // Several string literals become one enum; any other union is described by its first member.
  function UnionBase(members: seq<TypeNode>, params: TypeParams): Schema
    decreases params != map[], members, 0
  {
    var nonNull := NonNull(members);
    if |nonNull| > 1 && AllLiterals(nonNull) then EnumOf(LiteralValues(nonNull))
    else if nonNull != [] then TypeToSchema(nonNull[0], params)
    else ANYTHING
  }

  function PropertySchemas(sigs: seq<Signature>, params: TypeParams): map<string, Schema>
    decreases params != map[], sigs, 0
  {
    if sigs == [] then map[]
    else
      var rest := PropertySchemas(sigs[1..], params);
      match sigs[0]
      case Property(name, typ, _) =>
        map[name := if typ.Some? then TypeToSchema(typ.value, params) else ANYTHING] + rest
      case OtherSignature => rest
  }

  function RequiredNames(sigs: seq<Signature>): seq<string> {
    if sigs == [] then []
    else if sigs[0].Property? && !sigs[0].question then [sigs[0].name] + RequiredNames(sigs[1..])
    else RequiredNames(sigs[1..])
  }

  // ----- soundness of the translation -----

  // What is described by the one type node is described by the other.
  ghost predicate Covers(first: TypeNode, t: TypeNode) {
    t == first || (first.StringKeyword? && t.StringLiteral?)
  }

  // A union is described truthfully when its non-null members are all string literals, when the
  // first of them covers the others, or when it is read as `{}`: only the first is documented.
  ghost predicate FaithfulType(t: TypeNode, params: TypeParams)
    decreases params != map[], t
  {
    match t
    case Union(members) =>
      var nonNull := NonNull(members);
      || (|nonNull| > 1 && AllLiterals(nonNull))
      || nonNull == []
      || TypeToSchema(nonNull[0], params) == ANYTHING
      || (FaithfulType(nonNull[0], params) && forall i :: 0 <= i < |nonNull| ==> Covers(nonNull[0], nonNull[i]))
    case Array(element) => FaithfulType(element, params)
    case TypeLiteral(sigs) =>
      forall i :: 0 <= i < |sigs| && sigs[i].Property? && sigs[i].typ.Some? ==> FaithfulType(sigs[i].typ.value, params)
    case Reference(name, _) => name in params ==> FaithfulType(params[name], map[])
    case _ => true
  }

  // The meanings in scope agree with the arguments the reader was given.
  ghost predicate Admissible(params: TypeParams, env: TypeMeanings) {
    forall x, w :: x in params && x in env && env[x](Some(w)) ==> Valid(TypeToSchema(params[x], map[]), w)
  }

  // Filtering keeps exactly the members that are not null or undefined.
  lemma {:induction false} NonNullKeeps(members: seq<TypeNode>)
    ensures |NonNull(members)| <= |members|
    ensures forall i :: 0 <= i < |members| && !IsNullish(members[i]) ==> Occurs(members[i], NonNull(members))
    ensures (exists i :: 0 <= i < |members| && IsNullish(members[i])) ==> |NonNull(members)| < |members|
  {
    if members != [] {
      var rest := NonNull(members[1..]);
      NonNullKeeps(members[1..]);
      forall i | 0 <= i < |members| && !IsNullish(members[i]) ensures Occurs(members[i], NonNull(members)) {
        if i == 0 {
          assert NonNull(members)[0] == members[0];
        } else {
          assert members[1..][i - 1] == members[i];
          var j :| 0 <= j < |rest| && rest[j] == members[i];
          assert NonNull(members)[if IsNullish(members[0]) then j else j + 1] == members[i];
        }
      }
      forall i | 0 <= i < |members| && IsNullish(members[i]) ensures |NonNull(members)| < |members| {
        assert i > 0 ==> members[1..][i - 1] == members[i];
      }
    }
  }

  ghost predicate Occurs(t: TypeNode, ts: seq<TypeNode>) {
    exists j :: 0 <= j < |ts| && ts[j] == t
  }

  lemma PropertySchemaIsOf(sigs: seq<Signature>, params: TypeParams, k: string)
    ensures k in PropertySchemas(sigs, params) ==>
      exists i :: 0 <= i < |sigs| && sigs[i].Property? && sigs[i].name == k &&
        PropertySchemas(sigs, params)[k] ==
          if sigs[i].typ.Some? then TypeToSchema(sigs[i].typ.value, params) else ANYTHING
  {
    if sigs != [] && k in PropertySchemas(sigs, params) {
      PropertySchemaIsOf(sigs[1..], params, k);
      if k in PropertySchemas(sigs[1..], params) {
        var i :| 0 <= i < |sigs[1..]| && sigs[1..][i].Property? && sigs[1..][i].name == k &&
          PropertySchemas(sigs[1..], params)[k] ==
            if sigs[1..][i].typ.Some? then TypeToSchema(sigs[1..][i].typ.value, params) else ANYTHING;
        assert sigs[i + 1] == sigs[1..][i];
      } else {
        assert sigs[0].name == k;
      }
    }
  }

  lemma RequiredIsMandatory(sigs: seq<Signature>, k: string)
    ensures k in RequiredNames(sigs) ==>
      exists i :: 0 <= i < |sigs| && sigs[i].Property? && sigs[i].name == k && !sigs[i].question
  {
    if sigs != [] && k in RequiredNames(sigs) {
      RequiredIsMandatory(sigs[1..], k);
      if k in RequiredNames(sigs[1..]) {
        var i :| 0 <= i < |sigs[1..]| && sigs[1..][i].Property? && sigs[1..][i].name == k && !sigs[1..][i].question;
        assert sigs[i + 1] == sigs[1..][i];
      } else {
        assert sigs[0].Property? && sigs[0].name == k && !sigs[0].question;
      }
    }
  }

  /** Every JSON value of a faithfully described type is valid under the schema read from it. */
  lemma {:induction false} TypeSoundness(t: TypeNode, params: TypeParams, env: TypeMeanings, v: Json)
    requires params.Keys <= env.Keys && Admissible(params, env)
    requires FaithfulType(t, params)
    requires AcceptsType(t, env, Some(v))
    ensures Valid(TypeToSchema(t, params), v)
    decreases t
  {
    match t
    case Union(members) =>
      var i :| 0 <= i < |members| && AcceptsType(members[i], env, Some(v));
      UnionSoundness(members, i, params, env, v);
    case Array(element) =>
      forall i | 0 <= i < |v.elems| ensures Valid(TypeToSchema(element, params), v.elems[i]) {
        TypeSoundness(element, params, env, v.elems[i]);
      }
    case TypeLiteral(sigs) =>
      var s := TypeToSchema(t, params);
      forall i | 0 <= i < |s.required| ensures s.required[i] in v.fields {
        RequiredIsMandatory(sigs, s.required[i]);
      }
      forall k | k in s.properties && k in v.fields ensures Valid(s.properties[k], v.fields[k]) {
        PropertySchemaIsOf(sigs, params, k);
        var i :| 0 <= i < |sigs| && sigs[i].Property? && sigs[i].name == k && s.properties[k] ==
          if sigs[i].typ.Some? then TypeToSchema(sigs[i].typ.value, params) else ANYTHING;
        assert AcceptsProperty(sigs[i], env, v.fields);
        if sigs[i].typ.Some? {
          TypeSoundness(sigs[i].typ.value, params, env, v.fields[k]);
        }
      }
    case _ =>
  }

  lemma {:induction false} UnionSoundness(members: seq<TypeNode>, i: nat, params: TypeParams, env: TypeMeanings,
                                          v: Json)
    requires params.Keys <= env.Keys && Admissible(params, env)
    requires FaithfulType(Union(members), params)
    requires i < |members| && AcceptsType(members[i], env, Some(v))
    ensures Valid(TypeToSchema(Union(members), params), v)
    decreases members, 1
  {
    var base := UnionBase(members, params);
    NonNullKeeps(members);
    NullableAdmitsNull(base, v);
    if IsNullish(members[i]) {
      assert v.JNull?;
    } else {
      ConcreteMemberSoundness(members, members[i], params, env, v);
    }
  }

  lemma {:induction false} ConcreteMemberSoundness(members: seq<TypeNode>, t: TypeNode, params: TypeParams,
                                                   env: TypeMeanings, v: Json)
    requires params.Keys <= env.Keys && Admissible(params, env)
    requires FaithfulType(Union(members), params)
    requires Occurs(t, NonNull(members)) && AcceptsType(t, env, Some(v))
    ensures Valid(UnionBase(members, params), v)
    decreases members, 0
  {
    var nonNull := NonNull(members);
    if |nonNull| > 1 && AllLiterals(nonNull) {
      var j :| 0 <= j < |nonNull| && nonNull[j] == t;
      assert LiteralValues(nonNull)[j] == t.value;
      assert v == JStr(t.value);
    } else if TypeToSchema(nonNull[0], params) != ANYTHING {
      var j :| 0 <= j < |nonNull| && nonNull[j] == t;
      assert AcceptsType(nonNull[0], env, Some(v)) by {
        assert Covers(nonNull[0], nonNull[j]);
      }
      TypeSoundness(nonNull[0], params, env, v);
    }
  }

  // ----- exactness of the translation -----

  predicate DistinctProperties(sigs: seq<Signature>) {
    forall i, j :: 0 <= i < j < |sigs| && sigs[i].Property? && sigs[j].Property? ==> sigs[i].name != sigs[j].name
  }

  /** Keywords, literals, arrays, type literals and parameters bound to such types; unions of literals,
      and unions of one such type with null. */
  predicate CoreType(t: TypeNode, params: TypeParams)
    decreases params != map[], t
  {
    match t
    case StringKeyword => true
    case NumberKeyword => true
    case BooleanKeyword => true
    case StringLiteral(_) => true
    case Union(members) =>
      var nonNull := NonNull(members);
      && (|nonNull| != |members| ==> exists i :: 0 <= i < |members| && members[i].NullLiteral?)
      && ((|nonNull| > 1 && AllLiterals(nonNull)) || (|nonNull| == 1 && CoreType(nonNull[0], params)))
    case Array(element) => CoreType(element, params)
    case TypeLiteral(sigs) =>
      && DistinctProperties(sigs)
      && forall i :: 0 <= i < |sigs| && sigs[i].Property? && sigs[i].typ.Some? ==> CoreType(sigs[i].typ.value, params)
    case Reference(name, _) => name in params && CoreType(params[name], map[])
    case _ => false
  }

  // Whatever is valid under the argument of a parameter belongs to the parameter's meaning.
  ghost predicate ExactMeanings(params: TypeParams, env: TypeMeanings) {
    forall x, w :: ExactMeaning(params, env, x, w)
  }

  ghost predicate ExactMeaning(params: TypeParams, env: TypeMeanings, x: string, w: Json) {
    x in params && CoreType(params[x], map[]) && Valid(TypeToSchema(params[x], map[]), w) ==>
      x in env && env[x](Some(w))
  }

  lemma {:induction false} NonNullFrom(members: seq<TypeNode>, j: nat) returns (i: nat)
    requires j < |NonNull(members)|
    ensures i < |members| && members[i] == NonNull(members)[j]
  {
    if IsNullish(members[0]) {
      i := NonNullFrom(members[1..], j);
      i := i + 1;
    } else if j == 0 {
      i := 0;
    } else {
      i := NonNullFrom(members[1..], j - 1);
      i := i + 1;
    }
  }

  // With distinct names, each property reaches `properties` and, without a question mark, `required`.
  lemma {:induction false} PropertyReadInto(sigs: seq<Signature>, params: TypeParams, i: nat)
    requires DistinctProperties(sigs) && i < |sigs| && sigs[i].Property?
    ensures sigs[i].name in PropertySchemas(sigs, params)
    ensures PropertySchemas(sigs, params)[sigs[i].name] ==
              if sigs[i].typ.Some? then TypeToSchema(sigs[i].typ.value, params) else ANYTHING
    ensures sigs[i].question || sigs[i].name in RequiredNames(sigs)
  {
    if i > 0 {
      PropertyReadInto(sigs[1..], params, i - 1);
    } else {
      PropertySchemaIsOf(sigs[1..], params, sigs[0].name);
    }
  }

  /** On the core types the schema describes nothing else: every valid value is one of the type. */
  lemma {:induction false} TypeExact(t: TypeNode, params: TypeParams, env: TypeMeanings, v: Json)
    requires ExactMeanings(params, env) && CoreType(t, params)
    requires Valid(TypeToSchema(t, params), v)
    ensures AcceptsType(t, env, Some(v))
    decreases t
  {
    match t
    case Union(members) => UnionExact(members, params, env, v);
    case Array(element) =>
      forall i | 0 <= i < |v.elems| ensures AcceptsType(element, env, Some(v.elems[i])) {
        TypeExact(element, params, env, v.elems[i]);
      }
    case TypeLiteral(sigs) =>
      var s := TypeToSchema(t, params);
      assert forall k :: k in s.properties && k in v.fields ==> Valid(s.properties[k], v.fields[k]);
      forall i | 0 <= i < |sigs| && sigs[i].Property? ensures AcceptsProperty(sigs[i], env, v.fields) {
        PropertyReadInto(sigs, params, i);
        if sigs[i].typ.Some? && sigs[i].name in v.fields {
          TypeExact(sigs[i].typ.value, params, env, v.fields[sigs[i].name]);
        }
      }
    case Reference(name, _) => assert ExactMeaning(params, env, name, v);
    case _ =>
  }

  lemma {:induction false} UnionExact(members: seq<TypeNode>, params: TypeParams, env: TypeMeanings, v: Json)
    requires ExactMeanings(params, env) && CoreType(Union(members), params)
    requires Valid(TypeToSchema(Union(members), params), v)
    ensures AcceptsType(Union(members), env, Some(v))
    decreases members, 1
  {
    var nonNull, base := NonNull(members), UnionBase(members, params);
    NullableAdmitsNull(base, v);
    if |nonNull| != |members| && v.JNull? {
      var i :| 0 <= i < |members| && members[i].NullLiteral?;
      assert AcceptsType(members[i], env, Some(v));
    } else {
      assert Valid(base, v);
      var j := BaseMember(members, params, env, v);
      var i := NonNullFrom(members, j);
      assert AcceptsType(members[i], env, Some(v));
    }
  }

  lemma {:induction false} BaseMember(members: seq<TypeNode>, params: TypeParams, env: TypeMeanings, v: Json)
    returns (j: nat)
    requires ExactMeanings(params, env) && CoreType(Union(members), params)
    requires Valid(UnionBase(members, params), v)
    ensures j < |NonNull(members)| && AcceptsType(NonNull(members)[j], env, Some(v))
    decreases members, 0
  {
    var nonNull := NonNull(members);
    if |nonNull| > 1 && AllLiterals(nonNull) {
      j :| 0 <= j < |nonNull| && LiteralValues(nonNull)[j] == v.text;
    } else {
      j := 0;
      TypeExact(nonNull[0], params, env, v);
    }
  }

  // An enumerated core type says nothing else.
  lemma {:induction false} CoreTypeEnumIsBare(t: TypeNode, params: TypeParams)
    requires CoreType(t, params)
    ensures var s := TypeToSchema(t, params); s.enm.Some? ==> s.(nullable := false) == EnumOf(s.enm.value)
    decreases params != map[], t
  {
    match t
    case Union(members) =>
      if |NonNull(members)| == 1 {
        CoreTypeEnumIsBare(NonNull(members)[0], params);
      }
    case Reference(name, _) => CoreTypeEnumIsBare(params[name], map[]);
    case _ =>
  }
}
