/** What a zod expression accepts at run time. Constants and helpers may refer to each other
    cyclically, so acceptance is defined by unfolding at most `n` times; `Accepts` then asks for
    some number of unfoldings. `custom<T>` is read as its declared type. */
module ZodMeaning {
  import opened Lists
  import opened Text
  import opened JsonSchema
  import opened TypeNodes
  import opened ZodReader

  // What the modifiers further out in the chain say about unknown keys: the outermost one wins.
  // Anything but Unset is possible on an object only; zod throws on any other schema.
  datatype KeyPolicy = Unset | Loose | Strict

  // A type argument means what it means where the call is written.
  ghost function BindMeanings(typeParams: seq<string>, typeArgs: seq<TypeNode>, env: TypeMeanings): TypeMeanings {
    if typeParams == [] || typeArgs == [] then map[]
    else map[typeParams[0] := v => AcceptsType(typeArgs[0], env, v)] + BindMeanings(typeParams[1..], typeArgs[1..], env)
  }

  ghost predicate AcceptsN(n: nat, prog: Program, file: string, env: TypeMeanings, e: Expr, keys: KeyPolicy,
                           v: Option<Json>)
    decreases n, 1
  {
    n > 0 &&
    match e
    case Parens(inner) => AcceptsN(n - 1, prog, file, env, inner, keys, v)
    case Cast(inner) => AcceptsN(n - 1, prog, file, env, inner, keys, v)
    case Name(name) => AcceptsName(n - 1, prog, file, name, keys, v)
    case HelperCall(name, typeArgs) =>
      (match ResolveHelper(prog, file, name)
       case None => prog.foreign(name, v)
       case Some((target, helper)) =>
         if helper.body.None? then prog.foreign(name, v)
         else AcceptsN(n - 1, prog, target, BindMeanings(helper.typeParams, typeArgs, env), helper.body.value, keys, v))
    case ZObject(props) =>
      && v.Some? && v.value.JObj?
      && (keys.Strict? ==> v.value.fields.Keys <= PropNames(props))
      && forall i :: 0 <= i < |props| ==> AcceptsProp(n - 1, prog, file, env, props[i], v.value.fields)
    case Chain(receiver, modifier) => AcceptsChain(n, prog, file, env, receiver, modifier, keys, v)
    case Unread(means) => means(v)
    case _ => keys.Unset? && AcceptsFactory(n, prog, file, env, e, v)
  }

  // The factories other than z.object.
  ghost predicate AcceptsFactory(n: nat, prog: Program, file: string, env: TypeMeanings, e: Expr, v: Option<Json>)
    requires n > 0
    decreases n, 0
  {
    match e
    case ZString => v.Some? && v.value.JStr?
    case ZNumber => v.Some? && v.value.JNum?
    case ZBoolean => v.Some? && v.value.JBool?
    case ZNull => v == Some(JNull)
    case ZAny => v.Some? || prog.absentAny
    case ZCustom(declared) => declared.Some? ==> AcceptsType(declared.value, env, v)
    case ZArray(item) =>
      && v.Some? && v.value.JArr?
      && (item.Some? ==> forall i :: 0 <= i < |v.value.elems| ==>
            AcceptsN(n - 1, prog, file, env, item.value, Unset, Some(v.value.elems[i])))
    case ZRecord(entries) => v.Some? && v.value.JObj? && entries(v)
    case ZUnion(options) => exists i :: 0 <= i < |options| && AcceptsN(n - 1, prog, file, env, options[i], Unset, v)
    case ZEnum(values) => v.Some? && v.value.JStr? && v.value.text in values
    case ZLiteral(value) => v == Some(JStr(value))
    case _ => false
  }

  ghost predicate AcceptsName(n: nat, prog: Program, file: string, name: string, keys: KeyPolicy, v: Option<Json>)
    decreases n, 2
  {
    match ResolveVariable(prog, file, name)
    case None => prog.foreign(name, v)
    case Some((target, init)) => AcceptsN(n, prog, target, map[], init, keys, v)
  }

  predicate DistinctNames(props: seq<Prop>) {
    forall i, j :: 0 <= i < j < |props| && !props[i].OtherProp? && !props[j].OtherProp? ==>
        props[i].name != props[j].name
  }

  // TypeScript rejects a repeated property name, so every property constrains its field.
  ghost predicate AcceptsProp(n: nat, prog: Program, file: string, env: TypeMeanings, prop: Prop,
                              fields: map<string, Json>)
    decreases n, 3
  {
    match prop
    case Assign(name, init) => AcceptsN(n, prog, file, env, init, Unset, FieldOf(fields, name))
    case Shorthand(name) => AcceptsName(n, prog, file, name, Unset, FieldOf(fields, name))
    case OtherProp(means) => means(Some(JObj(fields)))
  }

  function FieldOf(fields: map<string, Json>, name: string): Option<Json> {
    if name in fields then Some(fields[name]) else None
  }

  function PropNames(props: seq<Prop>): set<string> {
    set i | 0 <= i < |props| && !props[i].OtherProp? :: props[i].name
  }

  ghost predicate AcceptsChain(n: nat, prog: Program, file: string, env: TypeMeanings, receiver: Expr,
                               modifier: Modifier, keys: KeyPolicy, v: Option<Json>)
    requires n > 0
    decreases n, 0
  {
    match modifier
    case Optional => keys.Unset? && (v.None? || AcceptsN(n - 1, prog, file, env, receiver, Unset, v))
    case Nullish => keys.Unset? && (v.None? || v.value.JNull? || AcceptsN(n - 1, prog, file, env, receiver, Unset, v))
    case Default => keys.Unset? && (v.None? || AcceptsN(n - 1, prog, file, env, receiver, Unset, v))
    case Nullable => keys.Unset? && (v == Some(JNull) || AcceptsN(n - 1, prog, file, env, receiver, Unset, v))
    case Catch => keys.Unset?
    case StrictKeys => AcceptsN(n - 1, prog, file, env, receiver, PolicyBelow(modifier, keys), v)
    case PassthroughKeys => AcceptsN(n - 1, prog, file, env, receiver, PolicyBelow(modifier, keys), v)
    case StripKeys => AcceptsN(n - 1, prog, file, env, receiver, PolicyBelow(modifier, keys), v)
    case Keep(admits) => AcceptsN(n - 1, prog, file, env, receiver, keys, v) && admits(v)
    case OtherModifier(means) => means(v)
    case Min(bound) =>
      && keys.Unset? && AcceptsN(n - 1, prog, file, env, receiver, Unset, v)
      && (match bound
          case Computed(admits) => admits(v)
          case Literal(b) => v.Some? && Measurable(v.value) && b <= Measure(n - 1, prog, file, receiver, v.value))
    case Max(bound) =>
      && keys.Unset? && AcceptsN(n - 1, prog, file, env, receiver, Unset, v)
      && (match bound
          case Computed(admits) => admits(v)
          case Literal(b) => v.Some? && Measurable(v.value) && Measure(n - 1, prog, file, receiver, v.value) <= b)
    case Int =>
      && keys.Unset? && AcceptsN(n - 1, prog, file, env, receiver, Unset, v)
      && v.Some? && v.value.JNum? && IsInteger(v.value.number) && Safe(v.value.number)
    case Positive =>
      && keys.Unset? && AcceptsN(n - 1, prog, file, env, receiver, Unset, v)
      && v.Some? && v.value.JNum? && v.value.number > 0.0
    case Trim => keys.Unset? && v.Some? && v.value.JStr? && AcceptsN(n - 1, prog, file, env, receiver, Unset, v)
  }

  // The policy a modifier hands to its receiver.
  function PolicyBelow(modifier: Modifier, keys: KeyPolicy): KeyPolicy {
    match modifier
    case StrictKeys => if keys.Unset? then Strict else keys
    case PassthroughKeys => if keys.Unset? then Loose else keys
    case StripKeys => if keys.Unset? then Loose else keys
    case Keep(_) => keys
    case _ => Unset
  }

  // `min` and `max` compare code units of a string, elements of an array, or a number itself ...
  predicate Measurable(v: Json) {
    v.JStr? || v.JArr? || v.JNum?
  }

  // ... after whatever trimming the chain has already done.
  function Measure(n: nat, prog: Program, file: string, receiver: Expr, v: Json): real
    requires Measurable(v)
  {
    match v
    case JStr(s) => CodeUnits(Trimmed(n, prog, file, receiver, s)) as real
    case JArr(es) => |es| as real
    case JNum(r) => r
  }

  function Trimmed(n: nat, prog: Program, file: string, e: Expr, s: string): string {
    if n == 0 then s
    else match e
      case Parens(inner) => Trimmed(n - 1, prog, file, inner, s)
      case Cast(inner) => Trimmed(n - 1, prog, file, inner, s)
      case Name(name) =>
        (match ResolveVariable(prog, file, name)
         case None => s
         case Some((target, init)) => Trimmed(n - 1, prog, target, init, s))
      case HelperCall(name, _) =>
        (match ResolveHelper(prog, file, name)
         case None => s
         case Some((target, helper)) =>
           if helper.body.None? then s else Trimmed(n - 1, prog, target, helper.body.value, s))
      case Chain(receiver, modifier) =>
        var t := Trimmed(n - 1, prog, file, receiver, s);
        if modifier.Trim? then Text.Trim(t) else t
      case _ => s
  }

  /** The request bodies an expression accepts when it is passed to `parseJsonBody`. */
  ghost predicate Accepts(prog: Program, file: string, e: Expr, v: Json) {
    exists n: nat :: AcceptsN(n, prog, file, map[], e, Unset, Some(v))
  }

  lemma {:induction false} TrimmedShortens(n: nat, prog: Program, file: string, e: Expr, s: string)
    ensures CodeUnits(Trimmed(n, prog, file, e, s)) <= CodeUnits(s)
  {
    if n > 0 {
      match e
      case Parens(inner) => TrimmedShortens(n - 1, prog, file, inner, s);
      case Cast(inner) => TrimmedShortens(n - 1, prog, file, inner, s);
      case Name(name) =>
        var r := ResolveVariable(prog, file, name);
        if r.Some? { TrimmedShortens(n - 1, prog, r.value.0, r.value.1, s); }
      case HelperCall(name, _) =>
        var r := ResolveHelper(prog, file, name);
        if r.Some? && r.value.1.body.Some? { TrimmedShortens(n - 1, prog, r.value.0, r.value.1.body.value, s); }
      case Chain(receiver, modifier) =>
        TrimmedShortens(n - 1, prog, file, receiver, s);
        TrimShortens(Trimmed(n - 1, prog, file, receiver, s));
      case _ =>
    }
  }
}
