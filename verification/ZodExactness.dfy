/** On a core fragment the emitted schema says exactly what the validator checks: a value is valid
    under it if and only if the expression accepts it. Only a string under a maximum and a number
    under `int` must be one that both sides measure alike (`Counted`). */
module ZodExactness {
  import opened Lists
  import opened Text
  import opened JsonSchema
  import opened TypeNodes
  import opened ZodReader
  import opened ZodMeaning
  import opened ZodSoundness

  // A chain of strict, passthrough and strip over an object literal.
  predicate ObjectShaped(prog: Program, file: string, e: Expr, depth: nat)
    decreases Budget(depth)
  {
    depth <= MAX_ZOD_DEPTH &&
    match e
    case Parens(inner) => ObjectShaped(prog, file, inner, depth + 1)
    case Cast(inner) => ObjectShaped(prog, file, inner, depth + 1)
    case Name(name) =>
      var r := ResolveVariable(prog, file, name);
      r.Some? && ObjectShaped(prog, r.value.0, r.value.1, depth + 1)
    case HelperCall(name, _) =>
      var r := ResolveHelper(prog, file, name);
      r.Some? && r.value.1.body.Some? && ObjectShaped(prog, r.value.0, r.value.1.body.value, depth + 1)
    case ZObject(_) => true
    case Chain(receiver, modifier) =>
      (modifier.StrictKeys? || modifier.PassthroughKeys? || modifier.StripKeys?)
          && ObjectShaped(prog, file, receiver, depth + 1)
    case _ => false
  }

  /** Objects, strings, numbers, booleans, null, any, custom predicates of a core type, arrays of
      readable items, unions, string enums and literals, with optional, default and nullable,
      unknown-key modifiers on objects, and at most one bound per side, none of them after `int`. */
  predicate Core(prog: Program, file: string, params: TypeParams, e: Expr, depth: nat)
    decreases Budget(depth), 1
  {
    depth <= MAX_ZOD_DEPTH && Read(prog, file, params, e, depth).Some? &&
    match e
    case Parens(inner) => Core(prog, file, params, inner, depth + 1)
    case Cast(inner) => Core(prog, file, params, inner, depth + 1)
    case Name(name) =>
      var r := ResolveVariable(prog, file, name);
      r.Some? && Core(prog, r.value.0, map[], r.value.1, depth + 1)
    case HelperCall(name, typeArgs) =>
      var (target, helper) := ResolveHelper(prog, file, name).value;
      Core(prog, target, BindArgs(helper.typeParams, typeArgs), helper.body.value, depth + 1)
    case ZObject(props) =>
      && DistinctNames(props)
      && forall i :: 0 <= i < |props| ==> CoreProp(prog, file, params, props[i], depth)
    case ZArray(item) => item.Some? ==> Core(prog, file, params, item.value, depth + 1)
    case ZUnion(options) => forall i :: 0 <= i < |options| ==> Core(prog, file, params, options[i], depth + 1)
    case Chain(receiver, modifier) =>
      && Core(prog, file, params, receiver, depth + 1)
      && CoreModifier(modifier, Read(prog, file, params, receiver, depth + 1).value,
                      ObjectShaped(prog, file, receiver, depth + 1))
    case ZCustom(declared) => declared.Some? ==> CoreType(declared.value, params)
    case ZRecord(_) => false
    case Unread(_) => false
    case _ => true
  }

  predicate CoreProp(prog: Program, file: string, params: TypeParams, prop: Prop, depth: nat)
    requires depth <= MAX_ZOD_DEPTH
    decreases Budget(depth), 0
  {
    match prop
    case Assign(_, init) => Core(prog, file, params, init, depth + 1)
    case Shorthand(name) =>
      var r := ResolveVariable(prog, file, name);
      r.Some? && Core(prog, r.value.0, map[], r.value.1, depth + 2)
    case OtherProp(_) => false
  }

  predicate CoreModifier(modifier: Modifier, inner: ZodRead, objectShaped: bool) {
    var s := inner.schema;
    var bare := !inner.optional && !s.nullable;
    match modifier
    case Optional => true
    case Default => true
    case Nullable => true
    case StrictKeys => bare && objectShaped && s.typ == Some(TypeObject) && s.additional == Some(true)
    case PassthroughKeys => bare && objectShaped && s.typ == Some(TypeObject) && s.additional == Some(true)
    case StripKeys => bare && objectShaped && s.typ == Some(TypeObject) && s.additional == Some(true)
    case Min(Literal(_)) =>
      bare && (|| (s.typ == Some(TypeString) && s.enm.None? && s.minLength.None?)
               || (s.typ == Some(TypeArray) && s.minItems.None?)
               || (s.typ == Some(TypeNumber) && s.minimum.None?))
    case Max(Literal(_)) =>
      bare && (|| (s.typ == Some(TypeString) && s.enm.None? && s.maxLength.None?)
               || (s.typ == Some(TypeArray) && s.maxItems.None?)
               || (s.typ == Some(TypeNumber) && s.maximum.None?))
    case Int => bare && s.typ == Some(TypeNumber)
    case Positive => bare && (s.typ == Some(TypeNumber) || s.typ == Some(TypeInteger)) && s.exclusiveMinimum.None?
    case _ => false
  }

  // ----- values that both sides measure alike -----

  // Bounds within which every number is one that `int` accepts.
  predicate SafelyBounded(s: Schema) {
    s.minimum.Some? && Safe(s.minimum.value) && s.maximum.Some? && Safe(s.maximum.value)
  }

  predicate CountedHere(s: Schema, v: Json) {
    && (v.JStr? && s.maxLength.Some? && s.maxLength.value >= 1.0 ==> InBmp(v.text))
    && (v.JNum? && s.typ == Some(TypeInteger) && !SafelyBounded(s) ==> Safe(v.number))
  }

  /** Wherever the schema has a string maximum of at least one, the string counts each character
      once; wherever it says integer without safe bounds, the number is a safe one. */
  ghost predicate Counted(s: Schema, v: Json)
    decreases s
  {
    CountedHere(s, v) && CountedParts(s, v)
  }

  ghost predicate CountedParts(s: Schema, v: Json)
    decreases s, 0
  {
    && (v.JObj? ==> forall k :: k in s.properties && k in v.fields ==> Counted(s.properties[k], v.fields[k]))
    && (v.JArr? && s.items.Some? ==> forall i :: 0 <= i < |v.elems| ==> Counted(s.items.value, v.elems[i]))
    && forall i :: 0 <= i < |s.anyOf| ==> Counted(s.anyOf[i], v)
  }

  // A schema with neither of the two measures all values alike.
  ghost predicate MeasuresNothing(s: Schema)
    decreases s
  {
    && (s.maxLength.Some? ==> s.maxLength.value < 1.0)
    && (s.typ == Some(TypeInteger) ==> SafelyBounded(s))
    && (forall k :: k in s.properties ==> MeasuresNothing(s.properties[k]))
    && (s.items.Some? ==> MeasuresNothing(s.items.value))
    && forall i :: 0 <= i < |s.anyOf| ==> MeasuresNothing(s.anyOf[i])
  }

  lemma {:induction false} UnmeasuredIsCounted(s: Schema, v: Json)
    requires MeasuresNothing(s)
    ensures Counted(s, v)
    decreases s
  {
    if v.JObj? {
      forall k | k in s.properties && k in v.fields ensures Counted(s.properties[k], v.fields[k]) {
        UnmeasuredIsCounted(s.properties[k], v.fields[k]);
      }
    }
    if v.JArr? && s.items.Some? {
      forall i | 0 <= i < |v.elems| ensures Counted(s.items.value, v.elems[i]) {
        UnmeasuredIsCounted(s.items.value, v.elems[i]);
      }
    }
    forall i | 0 <= i < |s.anyOf| ensures Counted(s.anyOf[i], v) {
      UnmeasuredIsCounted(s.anyOf[i], v);
    }
  }

  lemma {:induction false} PlainIsCounted(s: Schema, v: Json)
    requires Plain(v)
    ensures Counted(s, v)
    decreases s
  {
    if v.JObj? {
      forall k | k in s.properties && k in v.fields ensures Counted(s.properties[k], v.fields[k]) {
        PlainIsCounted(s.properties[k], v.fields[k]);
      }
    }
    if v.JArr? && s.items.Some? {
      forall i | 0 <= i < |v.elems| ensures Counted(s.items.value, v.elems[i]) {
        PlainIsCounted(s.items.value, v.elems[i]);
      }
    }
    forall i | 0 <= i < |s.anyOf| ensures Counted(s.anyOf[i], v) {
      PlainIsCounted(s.anyOf[i], v);
    }
  }

  // ----- facts about core expressions -----

  // What a parenthesised, cast, named or helper expression stands for.
  datatype Referent = Referent(file: string, params: TypeParams, body: Expr)

  predicate IsReference(e: Expr) {
    e.Parens? || e.Cast? || e.Name? || e.HelperCall?
  }

  function RefersTo(prog: Program, file: string, params: TypeParams, e: Expr): Option<Referent>
    requires IsReference(e)
  {
    match e
    case Parens(inner) => Some(Referent(file, params, inner))
    case Cast(inner) => Some(Referent(file, params, inner))
    case Name(name) =>
      var r := ResolveVariable(prog, file, name);
      if r.None? then None else Some(Referent(r.value.0, map[], r.value.1))
    case HelperCall(name, typeArgs) =>
      var r := ResolveHelper(prog, file, name);
      if r.None? || r.value.1.body.None? then None
      else Some(Referent(r.value.0, BindArgs(r.value.1.typeParams, typeArgs), r.value.1.body.value))
  }

  ghost function MeaningsFor(prog: Program, file: string, env: TypeMeanings, e: Expr): TypeMeanings
    requires IsReference(e)
  {
    match e
    case Parens(_) => env
    case Cast(_) => env
    case Name(_) => map[]
    case HelperCall(name, typeArgs) =>
      var r := ResolveHelper(prog, file, name);
      if r.None? then map[] else BindMeanings(r.value.1.typeParams, typeArgs, env)
  }

  // A core reference stands for a core expression, one level deeper, and is read as it.
  lemma CoreFollows(prog: Program, file: string, params: TypeParams, e: Expr, depth: nat) returns (r: Referent)
    requires IsReference(e) && Core(prog, file, params, e, depth)
    ensures RefersTo(prog, file, params, e) == Some(r) && depth <= MAX_ZOD_DEPTH
    ensures Core(prog, r.file, r.params, r.body, depth + 1)
    ensures Read(prog, file, params, e, depth) == Read(prog, r.file, r.params, r.body, depth + 1)
  {
    r := RefersTo(prog, file, params, e).value;
    if e.Name? {
      assert Read(prog, file, params, e, depth) == ReadName(prog, file, e.name, depth);
    }
  }

  lemma ShapeFollows(prog: Program, file: string, params: TypeParams, e: Expr, depth: nat, r: Referent)
    requires IsReference(e) && RefersTo(prog, file, params, e) == Some(r) && depth <= MAX_ZOD_DEPTH
    ensures ObjectShaped(prog, file, e, depth) <==> ObjectShaped(prog, r.file, r.body, depth + 1)
    ensures Trims(prog, file, e, depth) <==> Trims(prog, r.file, r.body, depth + 1)
  {
  }

  lemma ReferenceAccepts(n: nat, prog: Program, file: string, params: TypeParams, env: TypeMeanings, e: Expr,
                         r: Referent, keys: KeyPolicy, v: Option<Json>)
    requires n > 0 && IsReference(e) && RefersTo(prog, file, params, e) == Some(r)
    ensures AcceptsN(n, prog, file, env, e, keys, v)
            <==> AcceptsN(n - 1, prog, r.file, MeaningsFor(prog, file, env, e), r.body, keys, v)
  {
  }

  lemma MeaningsFollow(prog: Program, file: string, params: TypeParams, env: TypeMeanings, e: Expr, r: Referent)
    requires IsReference(e) && RefersTo(prog, file, params, e) == Some(r) && ExactMeanings(params, env)
    ensures ExactMeanings(r.params, MeaningsFor(prog, file, env, e))
  {
    if e.HelperCall? {
      BindingsExact(ResolveHelper(prog, file, e.helper).value.1.typeParams, e.typeArgs, env);
    }
  }

  lemma {:induction false} CoreNeverTrims(prog: Program, file: string, params: TypeParams, e: Expr, depth: nat)
    requires Core(prog, file, params, e, depth)
    ensures !Trims(prog, file, e, depth)
    decreases Budget(depth)
  {
    if IsReference(e) {
      var r := CoreFollows(prog, file, params, e, depth);
      CoreNeverTrims(prog, r.file, r.params, r.body, depth + 1);
      ShapeFollows(prog, file, params, e, depth, r);
    } else if e.Chain? {
      CoreNeverTrims(prog, file, params, e.receiver, depth + 1);
    }
  }

  // An enumerated core schema says nothing else.
  lemma {:induction false} CoreEnumIsBare(prog: Program, file: string, params: TypeParams, e: Expr, depth: nat)
    requires Core(prog, file, params, e, depth)
    ensures var s := Read(prog, file, params, e, depth).value.schema;
            s.enm.Some? ==> s.(nullable := false) == EnumOf(s.enm.value)
    decreases Budget(depth)
  {
    if IsReference(e) {
      var r := CoreFollows(prog, file, params, e, depth);
      CoreEnumIsBare(prog, r.file, r.params, r.body, depth + 1);
    } else if e.Chain? {
      CoreEnumIsBare(prog, file, params, e.receiver, depth + 1);
      CoreModifierKeepsEnum(e.modifier, Read(prog, file, params, e.receiver, depth + 1).value,
                            ObjectShaped(prog, file, e.receiver, depth + 1));
    } else if e.ZCustom? && e.declared.Some? {
      CoreTypeEnumIsBare(e.declared.value, params);
    }
  }

  lemma CoreModifierKeepsEnum(modifier: Modifier, inner: ZodRead, objectShaped: bool)
    requires CoreModifier(modifier, inner, objectShaped)
    requires inner.schema.enm.Some? ==> inner.schema.(nullable := false) == EnumOf(inner.schema.enm.value)
    ensures var s := Modify(modifier, inner).value.schema; s.enm.Some? ==> s.(nullable := false) == EnumOf(s.enm.value)
  {
  }

  lemma {:induction false} AllValuesFrom(schemas: seq<Schema>, s: string) returns (i: nat)
    requires AllEnums(schemas) && s in AllValues(schemas)
    ensures i < |schemas| && s in schemas[i].enm.value
  {
    if s in schemas[0].enm.value {
      i := 0;
    } else {
      i := AllValuesFrom(schemas[1..], s);
      i := i + 1;
    }
  }

  // ----- arguments of helpers -----

  lemma BindingsExact(typeParams: seq<string>, typeArgs: seq<TypeNode>, env: TypeMeanings)
    ensures ExactMeanings(BindArgs(typeParams, typeArgs), BindMeanings(typeParams, typeArgs, env))
  {
    var params, meanings := BindArgs(typeParams, typeArgs), BindMeanings(typeParams, typeArgs, env);
    forall x, w ensures ExactMeaning(params, meanings, x, w) {
      if x in params && CoreType(params[x], map[]) && Valid(TypeToSchema(params[x], map[]), w) {
        BindingExact(typeParams, typeArgs, env, x, w);
      }
    }
  }

  lemma {:induction false} BindingExact(typeParams: seq<string>, typeArgs: seq<TypeNode>, env: TypeMeanings, x: string,
                                        w: Json)
    requires x in BindArgs(typeParams, typeArgs) && CoreType(BindArgs(typeParams, typeArgs)[x], map[])
    requires Valid(TypeToSchema(BindArgs(typeParams, typeArgs)[x], map[]), w)
    ensures x in BindMeanings(typeParams, typeArgs, env) && BindMeanings(typeParams, typeArgs, env)[x](Some(w))
  {
    SameNamesBound(typeParams[1..], typeArgs[1..], env);
    if x in BindArgs(typeParams[1..], typeArgs[1..]) {
      BindingExact(typeParams[1..], typeArgs[1..], env, x, w);
    } else {
      TypeExact(typeArgs[0], map[], env, w);
    }
  }

  lemma {:induction false} SameNamesBound(typeParams: seq<string>, typeArgs: seq<TypeNode>, env: TypeMeanings)
    ensures BindArgs(typeParams, typeArgs).Keys == BindMeanings(typeParams, typeArgs, env).Keys
  {
    if typeParams != [] && typeArgs != [] {
      SameNamesBound(typeParams[1..], typeArgs[1..], env);
    }
  }

  // ----- absence -----

  lemma {:induction false} AbsentExact(n: nat, prog: Program, file: string, params: TypeParams, env: TypeMeanings,
                                       e: Expr, depth: nat)
    requires Core(prog, file, params, e, depth) && n + depth > MAX_ZOD_DEPTH
    requires Read(prog, file, params, e, depth).value.optional
    ensures AcceptsN(n, prog, file, env, e, Unset, None)
    decreases n
  {
    if IsReference(e) {
      var r := CoreFollows(prog, file, params, e, depth);
      AbsentExact(n - 1, prog, r.file, r.params, MeaningsFor(prog, file, env, e), r.body, depth + 1);
      ReferenceAccepts(n, prog, file, params, env, e, r, Unset, None);
    } else if e.Chain? && e.modifier.Nullable? {
      AbsentExact(n - 1, prog, file, params, env, e.receiver, depth + 1);
    }
  }

  // ----- presence -----

  /** Every value that is valid under the schema of a core expression, and measured alike, is accepted. */
  lemma {:induction false} ReadExact(n: nat, prog: Program, file: string, params: TypeParams, env: TypeMeanings,
                                     e: Expr, keys: KeyPolicy, depth: nat, v: Json)
    requires ExactMeanings(params, env)
    requires Core(prog, file, params, e, depth) && n + depth > MAX_ZOD_DEPTH
    requires Valid(Read(prog, file, params, e, depth).value.schema, v)
    requires Counted(Read(prog, file, params, e, depth).value.schema, v)
    requires !keys.Unset? ==> ObjectShaped(prog, file, e, depth)
    requires keys.Strict? && v.JObj? ==>
        v.fields.Keys <= Read(prog, file, params, e, depth).value.schema.properties.Keys
    ensures AcceptsN(n, prog, file, env, e, keys, Some(v))
    decreases n, 1
  {
    if IsReference(e) {
      ReferenceExact(n, prog, file, params, env, e, keys, depth, v);
    } else if e.Chain? {
      ChainExact(n, prog, file, params, env, e.receiver, e.modifier, keys, depth + 1, v,
                 Read(prog, file, params, e.receiver, depth + 1).value);
    } else {
      FactoryExact(n, prog, file, params, env, e, keys, depth, v);
    }
  }

  lemma {:induction false} ReferenceExact(n: nat, prog: Program, file: string, params: TypeParams, env: TypeMeanings,
                                          e: Expr, keys: KeyPolicy, depth: nat, v: Json)
    requires ExactMeanings(params, env)
    requires IsReference(e)
    requires Core(prog, file, params, e, depth) && n + depth > MAX_ZOD_DEPTH
    requires Valid(Read(prog, file, params, e, depth).value.schema, v)
    requires Counted(Read(prog, file, params, e, depth).value.schema, v)
    requires !keys.Unset? ==> ObjectShaped(prog, file, e, depth)
    requires keys.Strict? && v.JObj? ==>
        v.fields.Keys <= Read(prog, file, params, e, depth).value.schema.properties.Keys
    ensures AcceptsN(n, prog, file, env, e, keys, Some(v))
    decreases n, 0
  {
    var r := CoreFollows(prog, file, params, e, depth);
    ShapeFollows(prog, file, params, e, depth, r);
    MeaningsFollow(prog, file, params, env, e, r);
    ReadExact(n - 1, prog, r.file, r.params, MeaningsFor(prog, file, env, e), r.body, keys, depth + 1, v);
    ReferenceAccepts(n, prog, file, params, env, e, r, keys, Some(v));
  }

  lemma {:induction false} FactoryExact(n: nat, prog: Program, file: string, params: TypeParams, env: TypeMeanings,
                                        e: Expr, keys: KeyPolicy, depth: nat, v: Json)
    requires ExactMeanings(params, env)
    requires !IsReference(e) && !e.Chain?
    requires Core(prog, file, params, e, depth) && n + depth > MAX_ZOD_DEPTH
    requires Valid(Read(prog, file, params, e, depth).value.schema, v)
    requires Counted(Read(prog, file, params, e, depth).value.schema, v)
    requires !keys.Unset? ==> ObjectShaped(prog, file, e, depth)
    requires keys.Strict? && v.JObj? ==>
        v.fields.Keys <= Read(prog, file, params, e, depth).value.schema.properties.Keys
    ensures AcceptsN(n, prog, file, env, e, keys, Some(v))
    decreases n, 0, 2
  {
    match e
    case ZObject(props) => ObjectExact(n, prog, file, params, env, props, keys, depth, v);
    case ZArray(item) => ArrayExact(n, prog, file, params, env, item, depth, v);
    case ZUnion(options) =>
      var i := ValidMember(prog, file, params, options, depth, v);
      ReadExact(n - 1, prog, file, params, env, options[i], Unset, depth + 1, v);
    case ZCustom(declared) =>
      if declared.Some? { TypeExact(declared.value, params, env, v); }
    case _ => LeafExact(n, prog, file, params, env, e, depth, v);
  }

  lemma {:induction false} LeafExact(n: nat, prog: Program, file: string, params: TypeParams, env: TypeMeanings,
                                     e: Expr, depth: nat, v: Json)
    requires n > 0 && depth <= MAX_ZOD_DEPTH
    requires e.ZString? || e.ZNumber? || e.ZBoolean? || e.ZNull? || e.ZAny? || e.ZEnum? || e.ZLiteral?
    requires Read(prog, file, params, e, depth).Some? && Valid(Read(prog, file, params, e, depth).value.schema, v)
    ensures AcceptsN(n, prog, file, env, e, Unset, Some(v))
  {
  }

  lemma {:induction false} ObjectExact(n: nat, prog: Program, file: string, params: TypeParams, env: TypeMeanings,
                                       props: seq<Prop>, keys: KeyPolicy, depth: nat, v: Json)
    requires ExactMeanings(params, env)
    requires Core(prog, file, params, ZObject(props), depth) && n + depth > MAX_ZOD_DEPTH
    requires Valid(Read(prog, file, params, ZObject(props), depth).value.schema, v)
    requires Counted(Read(prog, file, params, ZObject(props), depth).value.schema, v)
    requires keys.Strict? && v.JObj? ==>
      v.fields.Keys <= Read(prog, file, params, ZObject(props), depth).value.schema.properties.Keys
    ensures AcceptsN(n, prog, file, env, ZObject(props), keys, Some(v))
    decreases n, 0, 1
  {
    PropNamesRead(prog, file, params, props, depth);
    var s := Read(prog, file, params, ZObject(props), depth).value.schema;
    assert forall k :: k in s.properties && k in v.fields ==> Valid(s.properties[k], v.fields[k]);
    forall i | 0 <= i < |props| ensures AcceptsProp(n - 1, prog, file, env, props[i], v.fields) {
      PropReadInto(prog, file, params, props, depth, i);
      PropExact(n, prog, file, params, env, props[i], depth, v);
    }
  }

  lemma {:induction false} ArrayExact(n: nat, prog: Program, file: string, params: TypeParams, env: TypeMeanings,
                                      item: Option<Expr>, depth: nat, v: Json)
    requires ExactMeanings(params, env)
    requires Core(prog, file, params, ZArray(item), depth) && n + depth > MAX_ZOD_DEPTH
    requires Valid(Read(prog, file, params, ZArray(item), depth).value.schema, v)
    requires Counted(Read(prog, file, params, ZArray(item), depth).value.schema, v)
    ensures AcceptsN(n, prog, file, env, ZArray(item), Unset, Some(v))
    decreases n, 0, 1
  {
    if item.Some? {
      forall i | 0 <= i < |v.elems| ensures AcceptsN(n - 1, prog, file, env, item.value, Unset, Some(v.elems[i])) {
        ReadExact(n - 1, prog, file, params, env, item.value, Unset, depth + 1, v.elems[i]);
      }
    }
  }

  // A value valid under the schema of a union is valid under the schema of one of its options.
  lemma {:induction false} ValidMember(prog: Program, file: string, params: TypeParams, options: seq<Expr>, depth: nat,
                                       v: Json)
    returns (i: nat)
    requires Core(prog, file, params, ZUnion(options), depth)
    requires Valid(Read(prog, file, params, ZUnion(options), depth).value.schema, v)
    requires Counted(Read(prog, file, params, ZUnion(options), depth).value.schema, v)
    ensures i < |options| && Core(prog, file, params, options[i], depth + 1)
    ensures Valid(Read(prog, file, params, options[i], depth + 1).value.schema, v)
    ensures Counted(Read(prog, file, params, options[i], depth + 1).value.schema, v)
  {
    var schemas := ReadAll(prog, file, params, options, depth).value;
    ReadAllGives(prog, file, params, options, depth, 0);
    if AllEnums(schemas) {
      i := AllValuesFrom(schemas, v.text);
      ReadAllGives(prog, file, params, options, depth, i);
      CoreEnumIsBare(prog, file, params, options[i], depth + 1);
      assert schemas[i].(nullable := false) == EnumOf(schemas[i].enm.value);
      assert Valid(schemas[i], v);
    } else {
      i :| 0 <= i < |schemas| && Valid(schemas[i], v);
      ReadAllGives(prog, file, params, options, depth, i);
    }
  }

  // The step for a chain, in terms of what its receiver was read as.
  lemma {:induction false} ChainExact(n: nat, prog: Program, file: string, params: TypeParams, env: TypeMeanings,
                                      receiver: Expr, modifier: Modifier, keys: KeyPolicy, depth: nat, v: Json,
                                      inner: ZodRead)
    requires ExactMeanings(params, env)
    requires n > 0 && n + depth > MAX_ZOD_DEPTH + 1
    requires Core(prog, file, params, receiver, depth) && inner == Read(prog, file, params, receiver, depth).value
    requires CoreModifier(modifier, inner, ObjectShaped(prog, file, receiver, depth))
    requires Valid(Modify(modifier, inner).value.schema, v) && Counted(Modify(modifier, inner).value.schema, v)
    requires keys.Unset? || modifier.StrictKeys? || modifier.PassthroughKeys? || modifier.StripKeys?
    requires keys.Strict? && v.JObj? ==> v.fields.Keys <= inner.schema.properties.Keys
    ensures AcceptsChain(n, prog, file, env, receiver, modifier, keys, Some(v))
    decreases n, 0
  {
    if !(modifier.Nullable? && v.JNull?) {
      var objectShaped := ObjectShaped(prog, file, receiver, depth);
      CoreStep(modifier, inner, objectShaped, keys, v);
      ReceiverExact(n - 1, prog, file, params, env, receiver, PolicyBelow(modifier, keys), depth, v, inner);
      if !modifier.Nullable? {
        Untrimmed(n - 1, prog, file, params, receiver, depth, v);
        CheckedByModifier(n, prog, file, env, receiver, modifier, keys, v, inner, objectShaped);
      }
    }
  }

  lemma {:induction false} ReceiverExact(n: nat, prog: Program, file: string, params: TypeParams, env: TypeMeanings,
                                         receiver: Expr, keys: KeyPolicy, depth: nat, v: Json, inner: ZodRead)
    requires ExactMeanings(params, env) && n + depth > MAX_ZOD_DEPTH
    requires Core(prog, file, params, receiver, depth) && inner == Read(prog, file, params, receiver, depth).value
    requires Valid(inner.schema, v) && Counted(inner.schema, v)
    requires !keys.Unset? ==> ObjectShaped(prog, file, receiver, depth)
    requires keys.Strict? && v.JObj? ==> v.fields.Keys <= inner.schema.properties.Keys
    ensures AcceptsN(n, prog, file, env, receiver, keys, Some(v))
    decreases n, 2
  {
    ReadExact(n, prog, file, params, env, receiver, keys, depth, v);
  }

  // A value valid under the modified schema is what the receiver's own step asks for.
  lemma CoreStep(modifier: Modifier, inner: ZodRead, objectShaped: bool, keys: KeyPolicy, v: Json)
    requires CoreModifier(modifier, inner, objectShaped) && !(modifier.Nullable? && v.JNull?)
    requires Valid(Modify(modifier, inner).value.schema, v) && Counted(Modify(modifier, inner).value.schema, v)
    requires keys.Unset? || modifier.StrictKeys? || modifier.PassthroughKeys? || modifier.StripKeys?
    requires keys.Strict? && v.JObj? ==> v.fields.Keys <= inner.schema.properties.Keys
    ensures Valid(inner.schema, v) && Counted(inner.schema, v)
    ensures !PolicyBelow(modifier, keys).Unset? ==> objectShaped
    ensures PolicyBelow(modifier, keys).Strict? && v.JObj? ==> v.fields.Keys <= inner.schema.properties.Keys
    ensures !modifier.Nullable? ==> Checked(modifier, inner.schema, v) && MeasuredAlike(modifier, inner.schema, v)
  {
    CountedPartsDependOn(inner.schema, Modify(modifier, inner).value.schema, v);
    if modifier.Nullable? {
      NullableAdmitsNull(inner.schema, v);
    } else {
      CoreModifierLoosens(modifier, inner, objectShaped, v);
    }
  }

  // zod and the schema count the same characters and take the same numbers.
  predicate MeasuredAlike(modifier: Modifier, s: Schema, v: Json) {
    && (modifier.Min? || modifier.Max? ==> modifier.bound.Literal? && (v.JStr? ==> s.typ == Some(TypeString)))
    && (modifier.Max? && v.JStr? ==> modifier.bound.amount < 1.0 || InBmp(v.text))
    && (modifier.Int? && v.JNum? ==> Safe(v.number))
  }

  lemma CountedPartsDependOn(s: Schema, t: Schema, v: Json)
    requires s.properties == t.properties && s.items == t.items && s.anyOf == t.anyOf
    ensures CountedParts(s, v) <==> CountedParts(t, v)
  {
  }

  lemma {:induction false} Untrimmed(n: nat, prog: Program, file: string, params: TypeParams, e: Expr, depth: nat,
                                     v: Json)
    requires Core(prog, file, params, e, depth)
    ensures v.JStr? ==> Trimmed(n, prog, file, e, v.text) == v.text
  {
    if v.JStr? {
      CoreNeverTrims(prog, file, params, e, depth);
      TrimFree(n, prog, file, params, e, depth, v.text);
    }
  }

  // What is left of a core modifier once its receiver accepts the value.
  lemma {:induction false} CheckedByModifier(n: nat, prog: Program, file: string, env: TypeMeanings, receiver: Expr,
                                             modifier: Modifier, keys: KeyPolicy, v: Json, inner: ZodRead,
                                             objectShaped: bool)
    requires n > 0 && AcceptsN(n - 1, prog, file, env, receiver, PolicyBelow(modifier, keys), Some(v))
    requires keys.Unset? || modifier.StrictKeys? || modifier.PassthroughKeys? || modifier.StripKeys?
    requires CoreModifier(modifier, inner, objectShaped) && !modifier.Nullable?
    requires v.JStr? ==> Trimmed(n - 1, prog, file, receiver, v.text) == v.text
    requires Checked(modifier, inner.schema, v) && MeasuredAlike(modifier, inner.schema, v)
    ensures AcceptsChain(n, prog, file, env, receiver, modifier, keys, Some(v))
  {
    if v.JStr? {
      CodeUnitsBounds(v.text);
    }
  }

  // A core modifier only adds constraints, and each is the one zod checks.
  lemma {:induction false} CoreModifierLoosens(modifier: Modifier, inner: ZodRead, objectShaped: bool, v: Json)
    requires CoreModifier(modifier, inner, objectShaped) && !modifier.Nullable?
    requires Valid(Modify(modifier, inner).value.schema, v)
    ensures Valid(inner.schema, v)
    ensures Checked(modifier, inner.schema, v)
  {
    DeepDependsOn(inner.schema, Modify(modifier, inner).value.schema, v);
  }

  lemma {:induction false} PropExact(n: nat, prog: Program, file: string, params: TypeParams, env: TypeMeanings,
                                     prop: Prop, depth: nat, v: Json)
    requires ExactMeanings(params, env)
    requires depth <= MAX_ZOD_DEPTH && n + depth > MAX_ZOD_DEPTH && n > 0
    requires CoreProp(prog, file, params, prop, depth) && ReadProp(prog, file, params, prop, depth).Some?
    requires v.JObj?
    requires prop.name !in v.fields ==> ReadProp(prog, file, params, prop, depth).value.optional
    requires var s := ReadProp(prog, file, params, prop, depth).value.schema;
             prop.name in v.fields ==> Valid(s, v.fields[prop.name]) && Counted(s, v.fields[prop.name])
    ensures AcceptsProp(n - 1, prog, file, env, prop, v.fields)
    decreases n, 0, 0
  {
    match prop
    case Assign(name, init) => FieldExact(n - 1, prog, file, params, env, init, depth + 1, FieldOf(v.fields, name));
    case Shorthand(name) =>
      var (target, init) := ResolveVariable(prog, file, name).value;
      FieldExact(n - 1, prog, target, map[], map[], init, depth + 2, FieldOf(v.fields, name));
  }

  lemma {:induction false} FieldExact(n: nat, prog: Program, file: string, params: TypeParams, env: TypeMeanings,
                                      e: Expr, depth: nat, field: Option<Json>)
    requires ExactMeanings(params, env)
    requires Core(prog, file, params, e, depth) && n + depth > MAX_ZOD_DEPTH
    requires field.None? ==> Read(prog, file, params, e, depth).value.optional
    requires var s := Read(prog, file, params, e, depth).value.schema;
             field.Some? ==> Valid(s, field.value) && Counted(s, field.value)
    ensures AcceptsN(n, prog, file, env, e, Unset, field)
    decreases n, 2
  {
    if field.Some? {
      ReadExact(n, prog, file, params, env, e, Unset, depth, field.value);
    } else {
      AbsentExact(n, prog, file, params, env, e, depth);
    }
  }

  // With distinct names, each property reaches `properties` and, unless optional, `required`.
  lemma {:induction false} PropReadInto(prog: Program, file: string, params: TypeParams, props: seq<Prop>, depth: nat,
                                        i: nat)
    requires depth <= MAX_ZOD_DEPTH && ReadProps(prog, file, params, props, depth).Some? && i < |props|
    requires DistinctNames(props)
    ensures !props[i].OtherProp? && ReadProp(prog, file, params, props[i], depth).Some?
    ensures var r := ReadProp(prog, file, params, props[i], depth).value;
            var (properties, required) := ReadProps(prog, file, params, props, depth).value;
            && props[i].name in properties && properties[props[i].name] == r.schema
            && (props[i].name in required || r.optional)
    decreases props
  {
    if i > 0 {
      PropReadInto(prog, file, params, props[1..], depth, i - 1);
    } else {
      PropNamesRead(prog, file, params, props[1..], depth);
    }
  }

  /** The documented request schema and the validator agree on every body in which each string under
      a maximum, or under a minimum above one, and each number under `int` is measured alike. */
  lemma {:induction false} RequestSchemaExact(long: bool, prog: Program, file: string, e: Expr, v: Json)
    requires Core(prog, file, map[], e, 0) && Faithful(long, prog, file, map[], map[], e, Unset, 0)
    requires long ==> LongEnough(prog, file, map[], e, 0, v)
    requires Counted(Read(prog, file, map[], e, 0).value.schema, v)
    ensures Accepts(prog, file, e, v) <==> Valid(Read(prog, file, map[], e, 0).value.schema, v)
  {
    if Accepts(prog, file, e, v) {
      BodySound(long, prog, file, e, v);
    }
    if Valid(Read(prog, file, map[], e, 0).value.schema, v) {
      ReadExact(MAX_ZOD_DEPTH + 1, prog, file, map[], map[], e, Unset, 0, v);
    }
  }

  /** Where no string has a maximum of one or more, or a minimum above one, and every `int` has safe
      bounds, they agree on every body whatever. */
  lemma {:induction false} RequestSchemaExactAlways(prog: Program, file: string, e: Expr, v: Json)
    requires Core(prog, file, map[], e, 0) && Faithful(false, prog, file, map[], map[], e, Unset, 0)
    requires MeasuresNothing(Read(prog, file, map[], e, 0).value.schema)
    ensures Accepts(prog, file, e, v) <==> Valid(Read(prog, file, map[], e, 0).value.schema, v)
  {
    UnmeasuredIsCounted(Read(prog, file, map[], e, 0).value.schema, v);
    RequestSchemaExact(false, prog, file, e, v);
  }

  /** On plain bodies they agree under all bounds. */
  lemma {:induction false} RequestSchemaExactOnPlain(prog: Program, file: string, e: Expr, v: Json)
    requires Core(prog, file, map[], e, 0) && Faithful(true, prog, file, map[], map[], e, Unset, 0)
    requires Plain(v)
    ensures Accepts(prog, file, e, v) <==> Valid(Read(prog, file, map[], e, 0).value.schema, v)
  {
    PlainIsCounted(Read(prog, file, map[], e, 0).value.schema, v);
    PlainIsLongEnough(prog, file, map[], e, 0, v);
    RequestSchemaExact(true, prog, file, e, v);
  }
}
