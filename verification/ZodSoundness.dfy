/** Every request body a readable zod expression accepts is valid under the schema the reader emits
    for it, on all expressions that stay clear of the reader's blind corners (`Faithful`). */
module ZodSoundness {
  import opened Lists
  import opened Text
  import opened JsonSchema
  import opened TypeNodes
  import opened ZodReader
  import opened ZodReadable
  import opened ZodMeaning

  // ----- what a caller must check -----

  // May the field be left out of the request? Follows the reader's own path.
  ghost predicate AdmitsAbsence(prog: Program, file: string, env: TypeMeanings, e: Expr, depth: nat)
    decreases Budget(depth)
  {
    depth <= MAX_ZOD_DEPTH ==>
    match e
    case Parens(inner) => AdmitsAbsence(prog, file, env, inner, depth + 1)
    case Cast(inner) => AdmitsAbsence(prog, file, env, inner, depth + 1)
    case Name(name) =>
      var r := ResolveVariable(prog, file, name);
      r.Some? ==> AdmitsAbsence(prog, r.value.0, map[], r.value.1, depth + 1)
    case HelperCall(name, typeArgs) =>
      var r := ResolveHelper(prog, file, name);
      r.Some? && r.value.1.body.Some? ==>
        AdmitsAbsence(prog, r.value.0, BindMeanings(r.value.1.typeParams, typeArgs, env), r.value.1.body.value,
                      depth + 1)
    case ZAny => prog.absentAny
    case ZCustom(declared) => declared.Some? ==> AcceptsType(declared.value, env, None)
    case ZUnion(options) => exists i :: 0 <= i < |options| && AdmitsAbsence(prog, file, env, options[i], depth + 1)
    case Unread(_) => true
    case Chain(receiver, modifier) =>
      (match modifier
       case Optional => true
       case Nullish => true
       case Default => true
       case Catch => true
       case OtherModifier(_) => true
       case Min(Literal(_)) => false
       case Max(Literal(_)) => false
       case Int => false
       case Positive => false
       case Trim => false
       case _ => AdmitsAbsence(prog, file, env, receiver, depth + 1))
    case _ => false
  }

  // Does the chain trim its string before what follows?
  predicate Trims(prog: Program, file: string, e: Expr, depth: nat)
    decreases Budget(depth)
  {
    depth <= MAX_ZOD_DEPTH &&
    match e
    case Parens(inner) => Trims(prog, file, inner, depth + 1)
    case Cast(inner) => Trims(prog, file, inner, depth + 1)
    case Name(name) =>
      var r := ResolveVariable(prog, file, name);
      r.Some? && Trims(prog, r.value.0, r.value.1, depth + 1)
    case HelperCall(name, _) =>
      var r := ResolveHelper(prog, file, name);
      r.Some? && r.value.1.body.Some? && Trims(prog, r.value.0, r.value.1.body.value, depth + 1)
    case Chain(receiver, modifier) => modifier.Trim? || Trims(prog, file, receiver, depth + 1)
    case _ => false
  }

  /** The constructs whose schema can be tighter than the validator: a union type whose first
      member does not cover the others, `nullish` over a schema that rejects null, `catch`, a maximum after a
      trim that is smaller than the one before it, unknown keys re-admitted after `strict` and not
      rejected again (`keys` is the policy from further out), a nullable member of a merged enum, and a
      field that may be absent although no `optional`, `nullish` or `default` says so. A string
      minimum above one is another (`long` admits it, for strings whose characters count once). */
  ghost predicate Faithful(long: bool, prog: Program, file: string, params: TypeParams, env: TypeMeanings, e: Expr,
                           keys: KeyPolicy, depth: nat)
    decreases Budget(depth), 1
  {
    depth <= MAX_ZOD_DEPTH ==>
    match e
    case Parens(inner) => Faithful(long, prog, file, params, env, inner, keys, depth + 1)
    case Cast(inner) => Faithful(long, prog, file, params, env, inner, keys, depth + 1)
    case Name(name) =>
      var r := ResolveVariable(prog, file, name);
      r.Some? ==> Faithful(long, prog, r.value.0, map[], map[], r.value.1, keys, depth + 1)
    case HelperCall(name, typeArgs) =>
      var r := ResolveHelper(prog, file, name);
      r.Some? && r.value.1.body.Some? ==>
        Faithful(long, prog, r.value.0, BindArgs(r.value.1.typeParams, typeArgs),
                 BindMeanings(r.value.1.typeParams, typeArgs, env), r.value.1.body.value, keys, depth + 1)
        && forall i :: 0 <= i < |typeArgs| ==> FaithfulType(typeArgs[i], map[])
    case ZObject(props) =>
      forall i :: 0 <= i < |props| ==>
        && FaithfulProp(long, prog, file, params, env, props[i], depth)
        && AbsenceIsRead(prog, file, params, env, props[i], depth)
    case ZCustom(declared) => declared.Some? ==> FaithfulType(declared.value, params)
    case ZArray(item) =>
      item.Some? && Read(prog, file, params, item.value, depth + 1).Some? ==>
        Faithful(long, prog, file, params, env, item.value, Unset, depth + 1)
    case ZUnion(options) =>
      && (forall i :: 0 <= i < |options| ==> Faithful(long, prog, file, params, env, options[i], Unset, depth + 1))
      && (var schemas := ReadAll(prog, file, params, options, depth);
          schemas.Some? && AllEnums(schemas.value) ==> NoneNullable(schemas.value))
    case Chain(receiver, modifier) =>
      && Faithful(long, prog, file, params, env, receiver, PolicyBelow(modifier, keys), depth + 1)
      && (var inner := Read(prog, file, params, receiver, depth + 1);
          inner.Some? ==>
            FaithfulModifier(long, modifier, inner.value.schema, Trims(prog, file, receiver, depth + 1), keys))
    case _ => true
  }

  // The value of a field that is present.
  ghost predicate FaithfulProp(long: bool, prog: Program, file: string, params: TypeParams, env: TypeMeanings,
                               prop: Prop, depth: nat)
    requires depth <= MAX_ZOD_DEPTH
    decreases Budget(depth), 0
  {
    match prop
    case Assign(_, init) => Faithful(long, prog, file, params, env, init, Unset, depth + 1)
    case Shorthand(name) =>
      var r := ResolveVariable(prog, file, name);
      r.Some? ==> Faithful(long, prog, r.value.0, map[], map[], r.value.1, Unset, depth + 2)
    case OtherProp(_) => true
  }

  // A field that may be absent is read as optional.
  ghost predicate AbsenceIsRead(prog: Program, file: string, params: TypeParams, env: TypeMeanings, prop: Prop,
                                depth: nat)
    requires depth <= MAX_ZOD_DEPTH
  {
    match prop
    case Assign(_, init) =>
      AdmitsAbsence(prog, file, env, init, depth + 1) ==> ReadsOptional(ReadProp(prog, file, params, prop, depth))
    case Shorthand(name) =>
      var r := ResolveVariable(prog, file, name);
      r.Some? && AdmitsAbsence(prog, r.value.0, map[], r.value.1, depth + 2) ==>
        ReadsOptional(ReadProp(prog, file, params, prop, depth))
    case OtherProp(_) => true
  }

  predicate ReadsOptional(r: Option<ZodRead>) {
    r.Some? ==> r.value.optional
  }

  predicate NoneNullable(schemas: seq<Schema>) {
    forall i :: 0 <= i < |schemas| ==> !schemas[i].nullable
  }

  ghost predicate AdmitsAll(s: Schema) {
    forall v: Json :: Valid(s, v)
  }

  ghost predicate FaithfulModifier(long: bool, modifier: Modifier, s: Schema, trims: bool, keys: KeyPolicy) {
    match modifier
    case Nullish => Valid(s, JNull)
    case Catch => AdmitsAll(s)
    case PassthroughKeys => keys.Unset? ==> s.additional != Some(false)
    case StripKeys => keys.Unset? ==> s.additional != Some(false)
    case Min(Literal(n)) => s.typ == Some(TypeString) ==> long || n <= 1.0
    case Max(Literal(n)) =>
      s.typ == Some(TypeString) && trims ==> s.maxLength.Some? && s.maxLength.value <= n
    case _ => true
  }

  /** Every string that must be longer than one character counts each of its characters once. */
  ghost predicate LongEnough(prog: Program, file: string, params: TypeParams, e: Expr, depth: nat, v: Json)
    decreases Budget(depth), 1
  {
    depth <= MAX_ZOD_DEPTH ==>
    match e
    case Parens(inner) => LongEnough(prog, file, params, inner, depth + 1, v)
    case Cast(inner) => LongEnough(prog, file, params, inner, depth + 1, v)
    case Name(name) =>
      var r := ResolveVariable(prog, file, name);
      r.Some? ==> LongEnough(prog, r.value.0, map[], r.value.1, depth + 1, v)
    case HelperCall(name, typeArgs) =>
      var r := ResolveHelper(prog, file, name);
      r.Some? && r.value.1.body.Some? ==>
        LongEnough(prog, r.value.0, BindArgs(r.value.1.typeParams, typeArgs), r.value.1.body.value, depth + 1, v)
    case ZObject(props) =>
      v.JObj? ==> forall i :: 0 <= i < |props| ==> LongProp(prog, file, params, props[i], depth, v.fields)
    case ZArray(item) =>
      item.Some? && v.JArr? && Read(prog, file, params, item.value, depth + 1).Some? ==>
        forall i :: 0 <= i < |v.elems| ==> LongEnough(prog, file, params, item.value, depth + 1, v.elems[i])
    case ZUnion(options) =>
      forall i :: 0 <= i < |options| ==> LongEnough(prog, file, params, options[i], depth + 1, v)
    case Chain(receiver, modifier) =>
      && LongEnough(prog, file, params, receiver, depth + 1, v)
      && (var inner := Read(prog, file, params, receiver, depth + 1);
          inner.Some? ==> LongUnder(modifier, inner.value.schema, v))
    case _ => true
  }

  ghost predicate LongProp(prog: Program, file: string, params: TypeParams, prop: Prop, depth: nat,
                           fields: map<string, Json>)
    requires depth <= MAX_ZOD_DEPTH
    decreases Budget(depth), 0
  {
    match prop
    case Assign(name, init) =>
      name in fields ==> LongEnough(prog, file, params, init, depth + 1, fields[name])
    case Shorthand(name) =>
      var r := ResolveVariable(prog, file, name);
      r.Some? && name in fields ==> LongEnough(prog, r.value.0, map[], r.value.1, depth + 2, fields[name])
    case OtherProp(_) => true
  }

  predicate LongUnder(modifier: Modifier, s: Schema, v: Json) {
    modifier.Min? && modifier.bound.Literal? && modifier.bound.amount > 1.0 && s.typ == Some(TypeString) && v.JStr? ==>
      InBmp(v.text)
  }

  // Plain values always are.
  lemma {:induction false} PlainIsLongEnough(prog: Program, file: string, params: TypeParams, e: Expr, depth: nat,
                                             v: Json)
    requires Plain(v)
    ensures LongEnough(prog, file, params, e, depth, v)
    decreases Budget(depth), 1
  {
    if depth <= MAX_ZOD_DEPTH {
      match e
      case Parens(inner) => PlainIsLongEnough(prog, file, params, inner, depth + 1, v);
      case Cast(inner) => PlainIsLongEnough(prog, file, params, inner, depth + 1, v);
      case Name(name) =>
        var r := ResolveVariable(prog, file, name);
        if r.Some? { PlainIsLongEnough(prog, r.value.0, map[], r.value.1, depth + 1, v); }
      case HelperCall(name, typeArgs) =>
        var r := ResolveHelper(prog, file, name);
        if r.Some? && r.value.1.body.Some? {
          PlainIsLongEnough(prog, r.value.0, BindArgs(r.value.1.typeParams, typeArgs), r.value.1.body.value, depth + 1,
                            v);
        }
      case ZObject(props) =>
        if v.JObj? { PlainPropsAreLong(prog, file, params, props, depth, v.fields); }
      case ZArray(item) =>
        if item.Some? && v.JArr? {
          forall i | 0 <= i < |v.elems| ensures LongEnough(prog, file, params, item.value, depth + 1, v.elems[i]) {
            PlainIsLongEnough(prog, file, params, item.value, depth + 1, v.elems[i]);
          }
        }
      case ZUnion(options) =>
        forall i | 0 <= i < |options| ensures LongEnough(prog, file, params, options[i], depth + 1, v) {
          PlainIsLongEnough(prog, file, params, options[i], depth + 1, v);
        }
      case Chain(receiver, modifier) => PlainIsLongEnough(prog, file, params, receiver, depth + 1, v);
      case _ =>
    }
  }

  lemma {:induction false} PlainPropsAreLong(prog: Program, file: string, params: TypeParams, props: seq<Prop>,
                                             depth: nat, fields: map<string, Json>)
    requires depth <= MAX_ZOD_DEPTH && Plain(JObj(fields))
    ensures forall i :: 0 <= i < |props| ==> LongProp(prog, file, params, props[i], depth, fields)
    decreases Budget(depth), 0
  {
    assert forall k :: k in fields ==> Plain(JObj(fields).fields[k]);
    forall i | 0 <= i < |props| ensures LongProp(prog, file, params, props[i], depth, fields) {
      match props[i]
      case Assign(name, init) =>
        if name in fields { PlainIsLongEnough(prog, file, params, init, depth + 1, fields[name]); }
      case Shorthand(name) =>
        var r := ResolveVariable(prog, file, name);
        if r.Some? && name in fields { PlainIsLongEnough(prog, r.value.0, map[], r.value.1, depth + 2, fields[name]); }
      case OtherProp(_) =>
    }
  }

  // ----- absence -----

  lemma {:induction false} AbsenceTracked(n: nat, prog: Program, file: string, params: TypeParams, env: TypeMeanings,
                                          e: Expr, keys: KeyPolicy, depth: nat)
    requires Read(prog, file, params, e, depth).Some?
    requires AcceptsN(n, prog, file, env, e, keys, None)
    ensures AdmitsAbsence(prog, file, env, e, depth)
    decreases n, 1
  {
    if e.Chain? {
      AbsenceThroughChain(n, prog, file, params, env, e.receiver, e.modifier, keys, depth);
    } else {
      match e
      case Parens(inner) => AbsenceTracked(n - 1, prog, file, params, env, inner, keys, depth + 1);
      case Cast(inner) => AbsenceTracked(n - 1, prog, file, params, env, inner, keys, depth + 1);
      case Name(name) =>
        var (target, init) := ResolveVariable(prog, file, name).value;
        AbsenceTracked(n - 1, prog, target, map[], map[], init, keys, depth + 1);
      case HelperCall(name, typeArgs) =>
        var (target, helper) := ResolveHelper(prog, file, name).value;
        AbsenceTracked(n - 1, prog, target, BindArgs(helper.typeParams, typeArgs),
                       BindMeanings(helper.typeParams, typeArgs, env), helper.body.value, keys, depth + 1);
      case ZUnion(options) =>
        var i :| 0 <= i < |options| && AcceptsN(n - 1, prog, file, env, options[i], Unset, None);
        ReadAllGives(prog, file, params, options, depth, i);
        AbsenceTracked(n - 1, prog, file, params, env, options[i], Unset, depth + 1);
      case _ =>
    }
  }

  lemma {:induction false} AbsenceThroughChain(n: nat, prog: Program, file: string, params: TypeParams,
                                               env: TypeMeanings, receiver: Expr, modifier: Modifier, keys: KeyPolicy,
                                               depth: nat)
    requires Read(prog, file, params, Chain(receiver, modifier), depth).Some?
    requires n > 0 && AcceptsChain(n, prog, file, env, receiver, modifier, keys, None)
    ensures AdmitsAbsence(prog, file, env, Chain(receiver, modifier), depth)
    decreases n, 0
  {
    if AcceptsN(n - 1, prog, file, env, receiver, PolicyBelow(modifier, keys), None) {
      AbsenceTracked(n - 1, prog, file, params, env, receiver, PolicyBelow(modifier, keys), depth + 1);
    }
  }

  // A readable list of expressions reads each of them.
  lemma {:induction false} ReadAllGives(prog: Program, file: string, params: TypeParams, es: seq<Expr>, depth: nat,
                                        i: nat)
    requires depth <= MAX_ZOD_DEPTH && i < |es|
    requires ReadAll(prog, file, params, es, depth).Some?
    ensures |ReadAll(prog, file, params, es, depth).value| == |es|
    ensures var r := Read(prog, file, params, es[i], depth + 1);
            r.Some? && r.value.schema == ReadAll(prog, file, params, es, depth).value[i]
    decreases es
  {
    if i > 0 {
      ReadAllGives(prog, file, params, es[1..], depth, i - 1);
    } else if |es| > 1 {
      ReadAllGives(prog, file, params, es[1..], depth, 0);
    }
  }

  // ----- trimming -----

  lemma {:induction false} TrimFree(n: nat, prog: Program, file: string, params: TypeParams, e: Expr, depth: nat,
                                    s: string)
    requires Read(prog, file, params, e, depth).Some?
    requires !Trims(prog, file, e, depth)
    ensures Trimmed(n, prog, file, e, s) == s
    decreases n
  {
    if n > 0 {
      match e
      case Parens(inner) => TrimFree(n - 1, prog, file, params, inner, depth + 1, s);
      case Cast(inner) => TrimFree(n - 1, prog, file, params, inner, depth + 1, s);
      case Name(name) =>
        var (target, init) := ResolveVariable(prog, file, name).value;
        TrimFree(n - 1, prog, target, map[], init, depth + 1, s);
      case HelperCall(name, typeArgs) =>
        var (target, helper) := ResolveHelper(prog, file, name).value;
        TrimFree(n - 1, prog, target, BindArgs(helper.typeParams, typeArgs), helper.body.value, depth + 1, s);
      case Chain(receiver, modifier) => TrimFree(n - 1, prog, file, params, receiver, depth + 1, s);
      case _ =>
    }
  }

  // ----- a strict object names all its keys -----

  lemma {:induction false} PropNamesRead(prog: Program, file: string, params: TypeParams, props: seq<Prop>, depth: nat)
    requires depth <= MAX_ZOD_DEPTH && ReadProps(prog, file, params, props, depth).Some?
    ensures ReadProps(prog, file, params, props, depth).value.0.Keys == PropNames(props)
    decreases props
  {
    if props != [] {
      PropNamesRead(prog, file, params, props[1..], depth);
      assert PropNames(props) == {props[0].name} + PropNames(props[1..]) by {
        forall k | k in PropNames(props) ensures k == props[0].name || k in PropNames(props[1..]) {
          var i :| 0 <= i < |props| && !props[i].OtherProp? && props[i].name == k;
          if i > 0 { assert props[1..][i - 1] == props[i]; }
        }
        forall k | k in PropNames(props[1..]) ensures k in PropNames(props) {
          var i :| 0 <= i < |props[1..]| && !props[1..][i].OtherProp? && props[1..][i].name == k;
          assert props[i + 1] == props[1..][i];
        }
      }
    }
  }

  lemma {:induction false} StrictKeysAreNamed(n: nat, prog: Program, file: string, params: TypeParams,
                                              env: TypeMeanings, e: Expr, depth: nat, v: Json)
    requires Read(prog, file, params, e, depth).Some?
    requires AcceptsN(n, prog, file, env, e, Strict, Some(v)) && v.JObj?
    ensures v.fields.Keys <= Read(prog, file, params, e, depth).value.schema.properties.Keys
    decreases n
  {
    match e
    case Parens(inner) => StrictKeysAreNamed(n - 1, prog, file, params, env, inner, depth + 1, v);
    case Cast(inner) => StrictKeysAreNamed(n - 1, prog, file, params, env, inner, depth + 1, v);
    case Name(name) =>
      var (target, init) := ResolveVariable(prog, file, name).value;
      StrictKeysAreNamed(n - 1, prog, target, map[], map[], init, depth + 1, v);
    case HelperCall(name, typeArgs) =>
      var (target, helper) := ResolveHelper(prog, file, name).value;
      StrictKeysAreNamed(n - 1, prog, target, BindArgs(helper.typeParams, typeArgs),
                         BindMeanings(helper.typeParams, typeArgs, env), helper.body.value, depth + 1, v);
    case ZObject(props) => PropNamesRead(prog, file, params, props, depth);
    case Chain(receiver, modifier) =>
      StrictKeysAreNamed(n - 1, prog, file, params, env, receiver, depth + 1, v);
    case _ =>
  }

  // ----- arguments of helpers -----

  lemma {:induction false} BindingsAgree(typeParams: seq<string>, typeArgs: seq<TypeNode>, env: TypeMeanings)
    requires forall i :: 0 <= i < |typeArgs| ==> FaithfulType(typeArgs[i], map[])
    ensures BindArgs(typeParams, typeArgs).Keys == BindMeanings(typeParams, typeArgs, env).Keys
    ensures Admissible(BindArgs(typeParams, typeArgs), BindMeanings(typeParams, typeArgs, env))
  {
    if typeParams != [] && typeArgs != [] {
      BindingsAgree(typeParams[1..], typeArgs[1..], env);
      var params, meanings := BindArgs(typeParams, typeArgs), BindMeanings(typeParams, typeArgs, env);
      forall x, w | x in params && x in meanings && meanings[x](Some(w))
        ensures Valid(TypeToSchema(params[x], map[]), w) {
        if x !in BindArgs(typeParams[1..], typeArgs[1..]) {
          TypeSoundness(typeArgs[0], map[], env, w);
        }
      }
    }
  }

  // ----- one modifier -----

  // Everything the step for a modifier needs to know about its receiver.
  ghost predicate ReceiverSound(n: nat, prog: Program, file: string, env: TypeMeanings, receiver: Expr,
                                keys: KeyPolicy, s: Schema, trims: bool, v: Json) {
    && (AcceptsN(n, prog, file, env, receiver, keys, Some(v)) ==>
          && ((keys.Loose? ==> s.additional != Some(false)) ==> Valid(s, v))
          && (keys.Strict? && v.JObj? ==> v.fields.Keys <= s.properties.Keys))
    && (!trims && v.JStr? ==> Trimmed(n, prog, file, receiver, v.text) == v.text)
  }

  // The checks a modifier adds, as far as the schema it was read over can tell.
  predicate Checked(modifier: Modifier, s: Schema, v: Json) {
    match modifier
    case StrictKeys => v.JObj? ==> v.fields.Keys <= s.properties.Keys
    case Int => v.JNum? && IsInteger(v.number)
    case Positive => v.JNum? && v.number > 0.0
    case Min(Literal(b)) =>
      (match v
       case JStr(t) => s.typ == Some(TypeString) ==> b <= |t| as real
       case JArr(es) => b <= |es| as real
       case JNum(r) => b <= r
       case _ => false)
    case Max(Literal(b)) =>
      (match v
       case JStr(t) => s.typ == Some(TypeString) ==> |t| as real <= b
       case JArr(es) => |es| as real <= b
       case JNum(r) => r <= b
       case _ => false)
    case _ => true
  }

  // Modifiers that let a value through without asking their receiver.
  predicate Bypasses(modifier: Modifier, v: Json) {
    modifier.Catch? || modifier.OtherModifier? || ((modifier.Nullish? || modifier.Nullable?) && v.JNull?)
  }

  // The run-time side: the receiver accepted the value, and the modifier's own check passed.
  lemma {:induction false} ReceiverAccepted(long: bool, n: nat, prog: Program, file: string, env: TypeMeanings,
                                            receiver: Expr, modifier: Modifier, keys: KeyPolicy, v: Json, s: Schema,
                                            trims: bool)
    requires n > 0 && AcceptsChain(n, prog, file, env, receiver, modifier, keys, Some(v))
    requires ReceiverSound(n - 1, prog, file, env, receiver, PolicyBelow(modifier, keys), s, trims, v)
    requires FaithfulModifier(long, modifier, s, trims, keys)
    requires long ==> LongUnder(modifier, s, v)
    requires keys.Loose? ==> !modifier.StrictKeys? && s.additional != Some(false)
    requires !Bypasses(modifier, v)
    ensures Valid(s, v) && Checked(modifier, s, v)
  {
    var below := PolicyBelow(modifier, keys);
    assert AcceptsN(n - 1, prog, file, env, receiver, below, Some(v));
    assert below.Loose? ==> s.additional != Some(false);
    if v.JStr? {
      TrimmedShortens(n - 1, prog, file, receiver, v.text);
      CodeUnitsBounds(v.text);
    }
  }

  // The schema side: a valid value that passes the check stays valid under the modified schema.
  lemma {:induction false} ModifiedStaysValid(modifier: Modifier, inner: ZodRead, v: Json)
    requires Valid(inner.schema, v) && Checked(modifier, inner.schema, v)
    requires Modify(modifier, inner).Some?
    ensures Valid(Modify(modifier, inner).value.schema, v)
  {
    var s := inner.schema;
    if modifier.Nullable? {
      NullableAdmitsNull(s, v);
    } else {
      DeepDependsOn(s, Modify(modifier, inner).value.schema, v);
    }
  }

  lemma {:induction false} ModifierSound(long: bool, n: nat, prog: Program, file: string, env: TypeMeanings,
                                         receiver: Expr, modifier: Modifier, keys: KeyPolicy, v: Json, inner: ZodRead,
                                         trims: bool)
    requires n > 0 && AcceptsChain(n, prog, file, env, receiver, modifier, keys, Some(v))
    requires ReceiverSound(n - 1, prog, file, env, receiver, PolicyBelow(modifier, keys), inner.schema, trims, v)
    requires FaithfulModifier(long, modifier, inner.schema, trims, keys)
    requires long ==> LongUnder(modifier, inner.schema, v)
    requires Modify(modifier, inner).Some?
    requires keys.Loose? ==> Modify(modifier, inner).value.schema.additional != Some(false)
    ensures Valid(Modify(modifier, inner).value.schema, v)
  {
    if Bypasses(modifier, v) {
      NullableAdmitsNull(inner.schema, v);
    } else {
      ReceiverAccepted(long, n, prog, file, env, receiver, modifier, keys, v, inner.schema, trims);
      ModifiedStaysValid(modifier, inner, v);
    }
  }

  // ----- the theorem -----

  /** The reader is sound at every depth, under every policy for unknown keys. */
  lemma {:induction false} ReadSound(long: bool, n: nat, prog: Program, file: string, params: TypeParams,
                                     env: TypeMeanings, e: Expr, keys: KeyPolicy, depth: nat, v: Json)
    requires Read(prog, file, params, e, depth).Some?
    requires Faithful(long, prog, file, params, env, e, keys, depth)
    requires params.Keys <= env.Keys && Admissible(params, env)
    requires AcceptsN(n, prog, file, env, e, keys, Some(v))
    requires long ==> LongEnough(prog, file, params, e, depth, v)
    requires keys.Loose? ==> Read(prog, file, params, e, depth).value.schema.additional != Some(false)
    ensures Valid(Read(prog, file, params, e, depth).value.schema, v)
    decreases n, 1
  {
    if e.Parens? || e.Cast? || e.Name? || e.HelperCall? {
      ReferenceSound(long, n, prog, file, params, env, e, keys, depth, v);
    } else if e.Chain? {
      var inner := Read(prog, file, params, e.receiver, depth + 1).value;
      ReceiverIsSound(long, n - 1, prog, file, params, env, e.receiver, PolicyBelow(e.modifier, keys), depth + 1, v);
      ModifierSound(long, n, prog, file, env, e.receiver, e.modifier, keys, v, inner,
                    Trims(prog, file, e.receiver, depth + 1));
    } else {
      FactorySound(long, n, prog, file, params, env, e, keys, depth, v);
    }
  }

  lemma {:induction false} ReferenceSound(long: bool, n: nat, prog: Program, file: string, params: TypeParams,
                                          env: TypeMeanings, e: Expr, keys: KeyPolicy, depth: nat, v: Json)
    requires e.Parens? || e.Cast? || e.Name? || e.HelperCall?
    requires Read(prog, file, params, e, depth).Some?
    requires Faithful(long, prog, file, params, env, e, keys, depth)
    requires params.Keys <= env.Keys && Admissible(params, env)
    requires AcceptsN(n, prog, file, env, e, keys, Some(v))
    requires long ==> LongEnough(prog, file, params, e, depth, v)
    requires keys.Loose? ==> Read(prog, file, params, e, depth).value.schema.additional != Some(false)
    ensures Valid(Read(prog, file, params, e, depth).value.schema, v)
    decreases n, 0
  {
    match e
    case Parens(inner) => ReadSound(long, n - 1, prog, file, params, env, inner, keys, depth + 1, v);
    case Cast(inner) => ReadSound(long, n - 1, prog, file, params, env, inner, keys, depth + 1, v);
    case Name(name) =>
      var (target, init) := ResolveVariable(prog, file, name).value;
      ReadSound(long, n - 1, prog, target, map[], map[], init, keys, depth + 1, v);
    case HelperCall(name, typeArgs) =>
      var (target, helper) := ResolveHelper(prog, file, name).value;
      BindingsAgree(helper.typeParams, typeArgs, env);
      ReadSound(long, n - 1, prog, target, BindArgs(helper.typeParams, typeArgs),
                BindMeanings(helper.typeParams, typeArgs, env), helper.body.value, keys, depth + 1, v);
  }

  lemma {:induction false} ReceiverIsSound(long: bool, n: nat, prog: Program, file: string, params: TypeParams,
                                           env: TypeMeanings, e: Expr, keys: KeyPolicy, depth: nat, v: Json)
    requires Read(prog, file, params, e, depth).Some?
    requires Faithful(long, prog, file, params, env, e, keys, depth)
    requires params.Keys <= env.Keys && Admissible(params, env)
    requires long ==> LongEnough(prog, file, params, e, depth, v)
    ensures ReceiverSound(n, prog, file, env, e, keys, Read(prog, file, params, e, depth).value.schema,
                          Trims(prog, file, e, depth), v)
    decreases n, 2
  {
    var s := Read(prog, file, params, e, depth).value.schema;
    if AcceptsN(n, prog, file, env, e, keys, Some(v)) {
      if keys.Loose? ==> s.additional != Some(false) {
        ReadSound(long, n, prog, file, params, env, e, keys, depth, v);
      }
      if keys.Strict? && v.JObj? {
        StrictKeysAreNamed(n, prog, file, params, env, e, depth, v);
      }
    }
    if !Trims(prog, file, e, depth) && v.JStr? {
      TrimFree(n, prog, file, params, e, depth, v.text);
    }
  }

  lemma {:induction false} FactorySound(long: bool, n: nat, prog: Program, file: string, params: TypeParams,
                                        env: TypeMeanings, e: Expr, keys: KeyPolicy, depth: nat, v: Json)
    requires !e.Parens? && !e.Cast? && !e.Name? && !e.HelperCall? && !e.Chain?
    requires Read(prog, file, params, e, depth).Some?
    requires Faithful(long, prog, file, params, env, e, keys, depth)
    requires params.Keys <= env.Keys && Admissible(params, env)
    requires AcceptsN(n, prog, file, env, e, keys, Some(v))
    requires long ==> LongEnough(prog, file, params, e, depth, v)
    requires keys.Loose? ==> Read(prog, file, params, e, depth).value.schema.additional != Some(false)
    ensures Valid(Read(prog, file, params, e, depth).value.schema, v)
    decreases n, 0, 1
  {
    match e
    case ZObject(props) => ObjectSound(long, n, prog, file, params, env, props, depth, v);
    case ZCustom(declared) =>
      if declared.Some? { TypeSoundness(declared.value, params, env, v); }
    case ZArray(item) => ArraySound(long, n, prog, file, params, env, item, depth, v);
    case ZUnion(options) => UnionSound(long, n, prog, file, params, env, options, depth, v);
    case _ =>
  }

  lemma {:induction false} ArraySound(long: bool, n: nat, prog: Program, file: string, params: TypeParams,
                                      env: TypeMeanings, item: Option<Expr>, depth: nat, v: Json)
    requires depth <= MAX_ZOD_DEPTH && n > 0 && AcceptsFactory(n, prog, file, env, ZArray(item), Some(v))
    requires Faithful(long, prog, file, params, env, ZArray(item), Unset, depth)
    requires params.Keys <= env.Keys && Admissible(params, env)
    requires long ==> LongEnough(prog, file, params, ZArray(item), depth, v)
    ensures Valid(Read(prog, file, params, ZArray(item), depth).value.schema, v)
    decreases n, 0, 0
  {
    if item.Some? && Read(prog, file, params, item.value, depth + 1).Some? {
      var s := Read(prog, file, params, item.value, depth + 1).value.schema;
      forall i | 0 <= i < |v.elems| ensures Valid(s, v.elems[i]) {
        ReadSound(long, n - 1, prog, file, params, env, item.value, Unset, depth + 1, v.elems[i]);
      }
    }
  }

  lemma {:induction false} UnionSound(long: bool, n: nat, prog: Program, file: string, params: TypeParams,
                                      env: TypeMeanings, options: seq<Expr>, depth: nat, v: Json)
    requires Read(prog, file, params, ZUnion(options), depth).Some?
    requires n > 0 && AcceptsFactory(n, prog, file, env, ZUnion(options), Some(v))
    requires Faithful(long, prog, file, params, env, ZUnion(options), Unset, depth)
    requires params.Keys <= env.Keys && Admissible(params, env)
    requires long ==> LongEnough(prog, file, params, ZUnion(options), depth, v)
    ensures Valid(Read(prog, file, params, ZUnion(options), depth).value.schema, v)
    decreases n, 0, 0
  {
    var i :| 0 <= i < |options| && AcceptsN(n - 1, prog, file, env, options[i], Unset, Some(v));
    ReadAllGives(prog, file, params, options, depth, i);
    ReadSound(long, n - 1, prog, file, params, env, options[i], Unset, depth + 1, v);
    UnionOfSchemas(ReadAll(prog, file, params, options, depth).value, i, v);
  }

  // A value valid under one member is valid under the union of the member schemas.
  lemma {:induction false} UnionOfSchemas(schemas: seq<Schema>, i: nat, v: Json)
    requires i < |schemas| && Valid(schemas[i], v)
    requires AllEnums(schemas) ==> NoneNullable(schemas)
    ensures Valid(if AllEnums(schemas) then EnumOf(Dedup(AllValues(schemas))) else ANYTHING.(anyOf := schemas), v)
  {
    if AllEnums(schemas) {
      AllValuesHas(schemas, i, v.text);
    }
  }

  lemma {:induction false} AllValuesHas(schemas: seq<Schema>, i: nat, s: string)
    requires AllEnums(schemas) && i < |schemas| && s in schemas[i].enm.value
    ensures s in AllValues(schemas)
  {
    if i > 0 {
      AllValuesHas(schemas[1..], i - 1, s);
    }
  }

  lemma {:induction false} ObjectSound(long: bool, n: nat, prog: Program, file: string, params: TypeParams,
                                       env: TypeMeanings, props: seq<Prop>, depth: nat, v: Json)
    requires n > 0 && depth <= MAX_ZOD_DEPTH && Read(prog, file, params, ZObject(props), depth).Some?
    requires Faithful(long, prog, file, params, env, ZObject(props), Unset, depth)
    requires params.Keys <= env.Keys && Admissible(params, env)
    requires v.JObj? && forall i :: 0 <= i < |props| ==> AcceptsProp(n - 1, prog, file, env, props[i], v.fields)
    requires long ==> LongEnough(prog, file, params, ZObject(props), depth, v)
    ensures Valid(Read(prog, file, params, ZObject(props), depth).value.schema, v)
    decreases n, 0, 0
  {
    forall i | 0 <= i < |props| && ReadProp(prog, file, params, props[i], depth).Some?
      ensures PropHolds(prog, file, params, props[i], depth, v.fields)
      ensures props[i].name !in v.fields ==> ReadProp(prog, file, params, props[i], depth).value.optional
    {
      PropSound(long, n, prog, file, params, env, props[i], depth, v);
    }
    PropsMakeObject(prog, file, params, props, depth, v.fields);
  }

  // A readable property, if it is present, is valid under its own schema.
  ghost predicate PropHolds(prog: Program, file: string, params: TypeParams, prop: Prop, depth: nat,
                            fields: map<string, Json>)
    requires depth <= MAX_ZOD_DEPTH
  {
    var r := ReadProp(prog, file, params, prop, depth);
    r.Some? && prop.name in fields ==> Valid(r.value.schema, fields[prop.name])
  }

  // The fields of an object, each valid if present and none missing that must not be.
  lemma {:induction false} PropsMakeObject(prog: Program, file: string, params: TypeParams, props: seq<Prop>,
                                           depth: nat, fields: map<string, Json>)
    requires depth <= MAX_ZOD_DEPTH && Read(prog, file, params, ZObject(props), depth).Some?
    requires forall i :: 0 <= i < |props| ==> PropHolds(prog, file, params, props[i], depth, fields)
    requires forall i :: 0 <= i < |props| ==>
               var r := ReadProp(prog, file, params, props[i], depth);
               r.Some? && !r.value.optional ==> props[i].name in fields
    ensures Valid(Read(prog, file, params, ZObject(props), depth).value.schema, JObj(fields))
  {
    var (properties, required) := ReadProps(prog, file, params, props, depth).value;
    forall k | k in properties && k in fields ensures Valid(properties[k], fields[k]) {
      var i := PropertyReadFrom(prog, file, params, props, depth, k);
      assert PropHolds(prog, file, params, props[i], depth, fields);
    }
    forall j | 0 <= j < |required| ensures required[j] in fields {
      var i := RequiredReadFrom(prog, file, params, props, depth, j);
    }
  }

  // A field that is present is valid; a field that is absent is one the schema does not require.
  lemma {:induction false} PropSound(long: bool, n: nat, prog: Program, file: string, params: TypeParams,
                                     env: TypeMeanings, prop: Prop, depth: nat, v: Json)
    requires n > 0 && depth <= MAX_ZOD_DEPTH && ReadProp(prog, file, params, prop, depth).Some?
    requires FaithfulProp(long, prog, file, params, env, prop, depth)
    requires params.Keys <= env.Keys && Admissible(params, env)
    requires v.JObj? && AcceptsProp(n - 1, prog, file, env, prop, v.fields)
    requires long ==> v.JObj? && LongProp(prog, file, params, prop, depth, v.fields)
    ensures PropHolds(prog, file, params, prop, depth, v.fields)
    ensures prop.name !in v.fields && AbsenceIsRead(prog, file, params, env, prop, depth) ==>
              ReadProp(prog, file, params, prop, depth).value.optional
    decreases n - 1, 2
  {
    match prop
    case Assign(name, init) =>
      if name in v.fields {
        ReadSound(long, n - 1, prog, file, params, env, init, Unset, depth + 1, v.fields[name]);
      } else {
        AbsenceTracked(n - 1, prog, file, params, env, init, Unset, depth + 1);
      }
    case Shorthand(name) =>
      var (target, init) := ResolveVariable(prog, file, name).value;
      if name in v.fields {
        ReadSound(long, n - 1, prog, target, map[], map[], init, Unset, depth + 2, v.fields[name]);
      } else {
        AbsenceTracked(n - 1, prog, target, map[], map[], init, Unset, depth + 2);
      }
  }

  // Each property schema and each required name comes from a property of the literal.
  lemma {:induction false} PropertyReadFrom(prog: Program, file: string, params: TypeParams, props: seq<Prop>,
                                            depth: nat, k: string)
    returns (i: nat)
    requires depth <= MAX_ZOD_DEPTH && ReadProps(prog, file, params, props, depth).Some?
    requires k in ReadProps(prog, file, params, props, depth).value.0
    ensures i < |props| && !props[i].OtherProp? && props[i].name == k
        && ReadProp(prog, file, params, props[i], depth).Some?
    ensures ReadProps(prog, file, params, props, depth).value.0[k]
        == ReadProp(prog, file, params, props[i], depth).value.schema
    decreases props
  {
    if k in ReadProps(prog, file, params, props[1..], depth).value.0 {
      i := PropertyReadFrom(prog, file, params, props[1..], depth, k);
      i := i + 1;
    } else {
      i := 0;
    }
  }

  lemma {:induction false} RequiredReadFrom(prog: Program, file: string, params: TypeParams, props: seq<Prop>,
                                            depth: nat, j: nat)
    returns (i: nat)
    requires depth <= MAX_ZOD_DEPTH && ReadProps(prog, file, params, props, depth).Some?
    requires j < |ReadProps(prog, file, params, props, depth).value.1|
    ensures i < |props| && !props[i].OtherProp?
        && props[i].name == ReadProps(prog, file, params, props, depth).value.1[j]
    ensures ReadProp(prog, file, params, props[i], depth).Some?
        && !ReadProp(prog, file, params, props[i], depth).value.optional
    decreases props
  {
    var first := ReadProp(prog, file, params, props[0], depth).value;
    var skipped := if first.optional then 0 else 1;
    if j < skipped {
      i := 0;
    } else {
      i := RequiredReadFrom(prog, file, params, props[1..], depth, j - skipped);
      i := i + 1;
    }
  }

  lemma {:induction false} BodySound(long: bool, prog: Program, file: string, e: Expr, v: Json)
    requires Read(prog, file, map[], e, 0).Some?
    requires Faithful(long, prog, file, map[], map[], e, Unset, 0)
    requires long ==> LongEnough(prog, file, map[], e, 0, v)
    requires Accepts(prog, file, e, v)
    ensures Valid(Read(prog, file, map[], e, 0).value.schema, v)
  {
    var n: nat :| AcceptsN(n, prog, file, map[], e, Unset, Some(v));
    ReadSound(long, n, prog, file, map[], map[], e, Unset, 0, v);
  }

  lemma AcceptedIsValid(long: bool, prog: Program, file: string, e: Expr, v: Json)
    requires Read(prog, file, map[], e, 0).Some?
    requires Faithful(long, prog, file, map[], map[], e, Unset, 0)
    requires long ==> LongEnough(prog, file, map[], e, 0, v)
    ensures Accepts(prog, file, e, v) ==> Valid(Read(prog, file, map[], e, 0).value.schema, v)
  {
    if Accepts(prog, file, e, v) {
      BodySound(long, prog, file, e, v);
    }
  }

  /** The request schema is never tighter than the validator: for every readable, faithful expression a
      schema is documented, and every body that the expression accepts is valid under it. */
  lemma {:induction false} RequestSchemaSound(long: bool, prog: Program, file: string, e: Expr, v: Json)
    requires Readable(prog, file, e, 10)
    requires Faithful(long, prog, file, map[], map[], e, Unset, 0)
    requires long ==> LongEnough(prog, file, map[], e, 0, v)
    ensures Read(prog, file, map[], e, 0).Some?
    ensures Accepts(prog, file, e, v) ==> Valid(Read(prog, file, map[], e, 0).value.schema, v)
  {
    ReadableIsRead(prog, file, map[], e, 10, 0);
    AcceptedIsValid(long, prog, file, e, v);
  }
}
