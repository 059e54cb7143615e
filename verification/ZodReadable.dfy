/** Which expressions the reader reads, said without the reader, and what it emits for the parts on
    which the validator may check more than a schema can say. */
module ZodReadable {
  import opened Lists
  import opened JsonSchema
  import opened TypeNodes
  import opened ZodReader

  // ----- names -----

  // A declaration of the file itself, or else of the one file that the name is imported from.
  ghost predicate VariableIs(prog: Program, file: string, name: string, target: string, init: Expr) {
    && file in prog.files && target in prog.files && name in prog.files[target].variables
    && prog.files[target].variables[name] == init
    && (target == file ||
        (name !in prog.files[file].variables
          && name in prog.files[file].imports && prog.files[file].imports[name] == target))
  }

  ghost predicate HelperIs(prog: Program, file: string, name: string, target: string, helper: Helper) {
    && file in prog.files && target in prog.files && name in prog.files[target].functions
    && prog.files[target].functions[name] == helper
    && (target == file ||
        (name !in prog.files[file].functions
          && name in prog.files[file].imports && prog.files[file].imports[name] == target))
  }

  /** A name stands for what its own file declares, and only without such a declaration for what the
      imported file declares itself: imports are followed for one hop. */
  lemma VariableExact(prog: Program, file: string, name: string, target: string, init: Expr)
    ensures ResolveVariable(prog, file, name) == Some((target, init)) <==> VariableIs(prog, file, name, target, init)
  {
    if ResolveVariable(prog, file, name).Some? {
      var (t, e) := ResolveVariable(prog, file, name).value;
      assert VariableIs(prog, file, name, t, e);
    }
  }

  lemma HelperExact(prog: Program, file: string, name: string, target: string, helper: Helper)
    ensures ResolveHelper(prog, file, name) == Some((target, helper)) <==> HelperIs(prog, file, name, target, helper)
  {
    if ResolveHelper(prog, file, name).Some? {
      var (t, h) := ResolveHelper(prog, file, name).value;
      assert HelperIs(prog, file, name, t, h);
    }
  }

  // ----- readability -----

  /** Every name and helper on the way stands for an expression, no unreadable expression, property or
      modifier stands where it is needed, no union is empty, and the nesting fits the room that is
      left. The items of an array are not needed. */
  ghost predicate Readable(prog: Program, file: string, e: Expr, room: int)
    decreases room, 1
  {
    room >= 0 &&
    match e
    case Parens(inner) => Readable(prog, file, inner, room - 1)
    case Cast(inner) => Readable(prog, file, inner, room - 1)
    case Name(name) => ReadableName(prog, file, name, room - 1)
    case HelperCall(name, _) => ReadableHelper(prog, file, name, room - 1)
    case ZObject(props) => forall i :: 0 <= i < |props| ==> ReadableProp(prog, file, props[i], room)
    case ZUnion(options) =>
      options != [] && forall i :: 0 <= i < |options| ==> Readable(prog, file, options[i], room - 1)
    case Chain(receiver, modifier) => !modifier.OtherModifier? && Readable(prog, file, receiver, room - 1)
    case Unread(_) => false
    case _ => true
  }

  ghost predicate ReadableProp(prog: Program, file: string, prop: Prop, room: int)
    requires room >= 0
    decreases room, 0
  {
    match prop
    case Assign(_, init) => Readable(prog, file, init, room - 1)
    case Shorthand(name) => ReadableName(prog, file, name, room - 2)
    case OtherProp(_) => false
  }

  ghost predicate ReadableName(prog: Program, file: string, name: string, room: int)
    decreases room, 2
  {
    exists target, init :: VariableIs(prog, file, name, target, init) && Readable(prog, target, init, room)
  }

  ghost predicate ReadableHelper(prog: Program, file: string, name: string, room: int)
    decreases room, 2
  {
    exists target, helper ::
      HelperIs(prog, file, name, target, helper) && helper.body.Some? && Readable(prog, target, helper.body.value, room)
  }

  /** An expression is read exactly when it is readable: at the top, within ten levels. */
  lemma {:induction false} ReadExactlyReadable(prog: Program, file: string, params: TypeParams, e: Expr, depth: nat)
    ensures Read(prog, file, params, e, depth).Some? <==> Readable(prog, file, e, 10 - depth)
    decreases Budget(depth), 2, 0
  {
    if depth <= MAX_ZOD_DEPTH {
      if e.Parens? || e.Cast? || e.Name? || e.HelperCall? {
        ReferenceReadable(prog, file, params, e, depth);
      } else if e.Chain? || e.ZObject? || e.ZUnion? {
        PartsReadable(prog, file, params, e, depth);
      } else {
        LeafReadable(prog, file, params, e, depth);
      }
    }
  }

  // The same, with the room given.
  lemma ReadableIsRead(prog: Program, file: string, params: TypeParams, e: Expr, room: int, depth: nat)
    requires room == 10 - depth
    ensures Read(prog, file, params, e, depth).Some? <==> Readable(prog, file, e, room)
  {
    ReadExactlyReadable(prog, file, params, e, depth);
  }

  lemma LeafReadable(prog: Program, file: string, params: TypeParams, e: Expr, depth: nat)
    requires depth <= MAX_ZOD_DEPTH && !e.Parens? && !e.Cast? && !e.Name? && !e.HelperCall?
    requires !e.Chain? && !e.ZObject? && !e.ZUnion?
    ensures Read(prog, file, params, e, depth).Some? <==> Readable(prog, file, e, 10 - depth)
  {
    if e.ZString? || e.ZNumber? || e.ZBoolean? || e.ZNull? || e.ZAny? {
      KeywordReadable(prog, file, params, e, depth);
    }
  }

  lemma KeywordReadable(prog: Program, file: string, params: TypeParams, e: Expr, depth: nat)
    requires depth <= MAX_ZOD_DEPTH && (e.ZString? || e.ZNumber? || e.ZBoolean? || e.ZNull? || e.ZAny?)
    ensures Read(prog, file, params, e, depth).Some? && Readable(prog, file, e, 10 - depth)
  {
    assert Read(prog, file, params, e, depth) == Plainly(match e
                                                         case ZString => OfType(TypeString)
                                                         case ZNumber => OfType(TypeNumber)
                                                         case ZBoolean => OfType(TypeBoolean)
                                                         case ZNull => OfType(TypeNull)
                                                         case ZAny => ANYTHING);
  }

  lemma {:induction false} ReferenceReadable(prog: Program, file: string, params: TypeParams, e: Expr, depth: nat)
    requires depth <= MAX_ZOD_DEPTH && (e.Parens? || e.Cast? || e.Name? || e.HelperCall?)
    ensures Read(prog, file, params, e, depth).Some? <==> Readable(prog, file, e, 10 - depth)
    decreases Budget(depth), 1, 0, 1
  {
    match e
    case Parens(inner) => ReadExactlyReadable(prog, file, params, inner, depth + 1);
    case Cast(inner) => ReadExactlyReadable(prog, file, params, inner, depth + 1);
    case Name(name) => NameReadable(prog, file, name, depth);
    case HelperCall(name, typeArgs) => HelperReadable(prog, file, params, name, typeArgs, depth);
  }

  lemma {:induction false} PartsReadable(prog: Program, file: string, params: TypeParams, e: Expr, depth: nat)
    requires depth <= MAX_ZOD_DEPTH && (e.Chain? || e.ZObject? || e.ZUnion?)
    ensures Read(prog, file, params, e, depth).Some? <==> Readable(prog, file, e, 10 - depth)
    decreases Budget(depth), 1, 0, 1
  {
    match e
    case ZObject(props) => PropsReadable(prog, file, params, props, depth);
    case ZUnion(options) => OptionsReadable(prog, file, params, options, depth);
    case Chain(receiver, modifier) =>
      ReadExactlyReadable(prog, file, params, receiver, depth + 1);
      ModifiersRead(modifier, Read(prog, file, params, receiver, depth + 1));
  }

  lemma ModifiersRead(modifier: Modifier, inner: Option<ZodRead>)
    ensures inner.Some? ==> (Modify(modifier, inner.value).Some? <==> !modifier.OtherModifier?)
  {
  }

  lemma {:induction false} NameReadable(prog: Program, file: string, name: string, depth: nat)
    requires depth <= MAX_ZOD_DEPTH + 1
    ensures ReadName(prog, file, name, depth).Some? <==> ReadableName(prog, file, name, 9 - depth)
    decreases Budget(depth), 1, 0, 0
  {
    var r := ResolveVariable(prog, file, name);
    if r.Some? {
      VariableExact(prog, file, name, r.value.0, r.value.1);
      ReadExactlyReadable(prog, r.value.0, map[], r.value.1, depth + 1);
    }
    forall target, init | VariableIs(prog, file, name, target, init) ensures r == Some((target, init)) {
      VariableExact(prog, file, name, target, init);
    }
  }

  lemma {:induction false} HelperReadable(prog: Program, file: string, params: TypeParams, name: string,
                                          typeArgs: seq<TypeNode>, depth: nat)
    requires depth <= MAX_ZOD_DEPTH
    ensures Read(prog, file, params, HelperCall(name, typeArgs), depth).Some?
            <==> ReadableHelper(prog, file, name, 9 - depth)
    decreases Budget(depth), 1, 0, 0
  {
    var r := ResolveHelper(prog, file, name);
    if r.Some? && r.value.1.body.Some? {
      HelperExact(prog, file, name, r.value.0, r.value.1);
      ReadExactlyReadable(prog, r.value.0, BindArgs(r.value.1.typeParams, typeArgs), r.value.1.body.value, depth + 1);
    }
    forall target, helper | HelperIs(prog, file, name, target, helper) ensures r == Some((target, helper)) {
      HelperExact(prog, file, name, target, helper);
    }
  }

  lemma {:induction false} PropReadable(prog: Program, file: string, params: TypeParams, prop: Prop, depth: nat)
    requires depth <= MAX_ZOD_DEPTH
    ensures ReadProp(prog, file, params, prop, depth).Some? <==> ReadableProp(prog, file, prop, 10 - depth)
    decreases Budget(depth), 0, 0
  {
    match prop
    case Assign(_, init) =>
      ReadExactlyReadable(prog, file, params, init, depth + 1);
      assert 10 - (depth + 1) == 10 - depth - 1;
    case Shorthand(name) =>
      NameReadable(prog, file, name, depth + 1);
      assert ReadProp(prog, file, params, prop, depth) == ReadName(prog, file, name, depth + 1);
      assert 9 - (depth + 1) == 10 - depth - 2;
    case OtherProp(_) =>
  }

  lemma {:induction false} PropsReadable(prog: Program, file: string, params: TypeParams, props: seq<Prop>, depth: nat)
    requires depth <= MAX_ZOD_DEPTH
    ensures ReadProps(prog, file, params, props, depth).Some?
            <==> forall i :: 0 <= i < |props| ==> ReadableProp(prog, file, props[i], 10 - depth)
    decreases Budget(depth), 1, 0, 0, |props|
  {
    if props != [] {
      PropReadable(prog, file, params, props[0], depth);
      PropsReadable(prog, file, params, props[1..], depth);
      assert forall i :: 0 < i < |props| ==> props[i] == props[1..][i - 1];
    }
  }

  lemma {:induction false} OptionsReadable(prog: Program, file: string, params: TypeParams, options: seq<Expr>,
                                           depth: nat)
    requires depth <= MAX_ZOD_DEPTH
    ensures ReadAll(prog, file, params, options, depth).Some?
            <==> forall i :: 0 <= i < |options| ==> Readable(prog, file, options[i], 9 - depth)
    ensures ReadAll(prog, file, params, options, depth) == Some([]) <==> options == []
    decreases Budget(depth), 1, 0, 0, |options|
  {
    if options != [] {
      ReadExactlyReadable(prog, file, params, options[0], depth + 1);
      OptionsReadable(prog, file, params, options[1..], depth);
      assert forall i :: 0 < i < |options| ==> options[i] == options[1..][i - 1];
    }
  }

  // ----- what is emitted -----

  // What a modifier documents about the values that satisfy the schema it is applied to.
  predicate Documents(modifier: Modifier, s: Schema, v: Json) {
    match modifier
    case StrictKeys => v.JObj? ==> v.fields.Keys <= s.properties.Keys
    case Min(Literal(n)) =>
      (match v
       case JStr(t) => s.typ == Some(TypeString) ==> n <= |t| as real
       case JArr(es) => s.typ == Some(TypeArray) ==> n <= |es| as real
       case JNum(r) => s.typ == Some(TypeNumber) ==> n <= r
       case _ => true)
    case Max(Literal(n)) =>
      (match v
       case JStr(t) => s.typ == Some(TypeString) ==> |t| as real <= n
       case JArr(es) => s.typ == Some(TypeArray) ==> |es| as real <= n
       case JNum(r) => s.typ == Some(TypeNumber) ==> r <= n
       case _ => true)
    case Int => v.JNum? ==> IsInteger(v.number)
    case Positive => v.JNum? ==> v.number > 0.0
    case _ => true
  }

  // The schema says nothing yet where the modifier would write.
  predicate Unsaid(modifier: Modifier, s: Schema) {
    match modifier
    case Min(Literal(_)) => s.minLength.None? && s.minItems.None? && s.minimum.None?
    case Max(Literal(_)) => s.maxLength.None? && s.maxItems.None? && s.maximum.None?
    case Int => s.typ == Some(TypeNumber) || s.typ == Some(TypeInteger)
    case Positive => s.exclusiveMinimum.None?
    case _ => true
  }

  /** One modifier step: the documented values are those of the receiver that pass what the modifier
      documents, and null under `nullable`; predicates, reshapes and computed bounds leave the
      documented values alone. Only `optional`, `nullish` and `default` make a field omissible. */
  lemma {:induction false} ModifierDocumented(modifier: Modifier, inner: ZodRead, v: Json)
    requires !modifier.OtherModifier? && Unsaid(modifier, inner.schema)
    ensures Modify(modifier, inner).Some?
    ensures Modify(modifier, inner).value.optional
            <==> inner.optional || modifier.Optional? || modifier.Nullish? || modifier.Default?
    ensures Valid(Modify(modifier, inner).value.schema, v)
            <==> (modifier.Nullable? && v.JNull?) || (Valid(inner.schema, v) && Documents(modifier, inner.schema, v))
  {
    match modifier
    case Nullable => NullableAdmitsNull(inner.schema, v);
    case Min(bound) => if bound.Literal? { MinDocumented(bound.amount, inner, v); }
    case Max(bound) => if bound.Literal? { MaxDocumented(bound.amount, inner, v); }
    case OtherModifier(_) =>
    case _ => DeepDependsOn(inner.schema, Modify(modifier, inner).value.schema, v);
  }

  lemma MinDocumented(n: real, inner: ZodRead, v: Json)
    requires Unsaid(Min(Literal(n)), inner.schema)
    ensures Valid(Modify(Min(Literal(n)), inner).value.schema, v)
            <==> Valid(inner.schema, v) && Documents(Min(Literal(n)), inner.schema, v)
  {
    DeepDependsOn(inner.schema, Modify(Min(Literal(n)), inner).value.schema, v);
  }

  lemma MaxDocumented(n: real, inner: ZodRead, v: Json)
    requires Unsaid(Max(Literal(n)), inner.schema)
    ensures Valid(Modify(Max(Literal(n)), inner).value.schema, v)
            <==> Valid(inner.schema, v) && Documents(Max(Literal(n)), inner.schema, v)
  {
    DeepDependsOn(inner.schema, Modify(Max(Literal(n)), inner).value.schema, v);
  }

  /** An array documents its items exactly as far as they can be read; a record is any object. */
  lemma {:induction false} CollectionsDocumented(prog: Program, file: string, params: TypeParams, item: Option<Expr>,
                                                 entries: Meaning, depth: nat, v: Json)
    requires depth <= MAX_ZOD_DEPTH
    ensures Valid(Read(prog, file, params, ZRecord(entries), depth).value.schema, v) <==> v.JObj?
    ensures Valid(Read(prog, file, params, ZArray(item), depth).value.schema, v)
            <==> v.JArr? && (item.Some? ==> ItemsValid(Read(prog, file, params, item.value, depth + 1), v.elems))
  {
  }

  ghost predicate ItemsValid(item: Option<ZodRead>, elems: seq<Json>) {
    item.Some? ==> forall i :: 0 <= i < |elems| ==> Valid(item.value.schema, elems[i])
  }

  lemma {:induction false} OptionsRead(prog: Program, file: string, params: TypeParams, options: seq<Expr>, depth: nat)
    requires depth <= MAX_ZOD_DEPTH && ReadAll(prog, file, params, options, depth).Some?
    ensures var schemas := ReadAll(prog, file, params, options, depth).value;
            |schemas| == |options|
            && forall i :: 0 <= i < |options| ==>
                 Read(prog, file, params, options[i], depth + 1).Some?
                 && schemas[i] == Read(prog, file, params, options[i], depth + 1).value.schema
    decreases options
  {
    if options != [] {
      OptionsRead(prog, file, params, options[1..], depth);
      assert forall i :: 0 < i < |options| ==> options[i] == options[1..][i - 1];
    }
  }

  lemma {:induction false} AllValuesExactly(schemas: seq<Schema>, x: string)
    requires AllEnums(schemas)
    ensures x in AllValues(schemas) <==> exists i :: 0 <= i < |schemas| && x in schemas[i].enm.value
  {
    if schemas != [] {
      AllValuesExactly(schemas[1..], x);
      assert forall i :: 0 < i < |schemas| ==> schemas[i] == schemas[1..][i - 1];
    }
  }

  // The schema of an option, as it was read.
  ghost predicate IsOption(prog: Program, file: string, params: TypeParams, options: seq<Expr>, depth: nat, s: Schema) {
    exists i :: 0 <= i < |options| && Read(prog, file, params, options[i], depth + 1).Some?
      && s == Read(prog, file, params, options[i], depth + 1).value.schema
  }

  predicate IsStringEnum(s: Schema) {
    s.typ == Some(TypeString) && s.enm.Some?
  }

  /** A union of string enums is one string enum that lists each of their values once; any other union
      documents what some option documents, and is never described by its first option alone. */
  lemma {:induction false} UnionDocumented(prog: Program, file: string, params: TypeParams, options: seq<Expr>,
                                           depth: nat, v: Json, x: string)
    requires depth <= MAX_ZOD_DEPTH && Read(prog, file, params, ZUnion(options), depth).Some?
    ensures var s := Read(prog, file, params, ZUnion(options), depth).value.schema;
            if forall o :: IsOption(prog, file, params, options, depth, o) ==> IsStringEnum(o) then
              && IsStringEnum(s) && NoDuplicates(s.enm.value)
              && (x in s.enm.value <==> exists o :: IsOption(prog, file, params, options, depth, o) && x in o.enm.value)
            else
              Valid(s, v) <==> exists o :: IsOption(prog, file, params, options, depth, o) && Valid(o, v)
  {
    var schemas := ReadAll(prog, file, params, options, depth).value;
    OptionsAre(prog, file, params, options, depth);
    EnumsExactly(schemas);
    if AllEnums(schemas) {
      AllValuesExactly(schemas, x);
      assert forall i :: 0 <= i < |schemas| ==> schemas[i] in schemas;
    } else {
      AnyOfExactly(schemas, v);
    }
  }

  lemma OptionsAre(prog: Program, file: string, params: TypeParams, options: seq<Expr>, depth: nat)
    requires depth <= MAX_ZOD_DEPTH && ReadAll(prog, file, params, options, depth).Some?
    ensures forall o :: IsOption(prog, file, params, options, depth, o)
                        <==> o in ReadAll(prog, file, params, options, depth).value
  {
    OptionsRead(prog, file, params, options, depth);
  }

  lemma EnumsExactly(schemas: seq<Schema>)
    ensures AllEnums(schemas) <==> forall o :: o in schemas ==> IsStringEnum(o)
  {
    assert forall i :: 0 <= i < |schemas| ==> schemas[i] in schemas;
  }

  lemma AnyOfExactly(schemas: seq<Schema>, v: Json)
    requires schemas != []
    ensures Valid(ANYTHING.(anyOf := schemas), v) <==> exists o :: o in schemas && Valid(o, v)
  {
    var s := ANYTHING.(anyOf := schemas);
    assert ShallowOk(s, v);
    if Valid(s, v) {
      assert DeepOk(s, v);
      var i :| 0 <= i < |s.anyOf| && Valid(s.anyOf[i], v);
      assert schemas[i] in schemas;
    }
    forall o | o in schemas && Valid(o, v) ensures Valid(s, v) {
      var i :| 0 <= i < |schemas| && schemas[i] == o;
      assert Valid(s.anyOf[i], v);
    }
  }
}
