/** The static reader that turns a zod expression into a JSON Schema: depth-bounded, all or
    nothing, resolving schema constants and generic predicate helpers as it goes. */
module ZodReader {
  import opened Lists
  import opened JsonSchema
  import opened TypeNodes

  // ----- a parsed program -----

  // A numeric argument is either a literal or computed, in which case it still restricts the value.
  datatype Bound = Literal(amount: real) | Computed(admits: Meaning)

  datatype Modifier =
    | Optional
    | Nullish
    | Default
    | Nullable
    | PassthroughKeys
    | StrictKeys
    | StripKeys
    | Min(bound: Bound)
    | Max(bound: Bound)
    | Int
    | Positive
    | Trim
    | Catch
    | Keep(admits: Meaning)           // refine, superRefine, transform, describe, brand, readonly, regex, pipe
    | OtherModifier(means: Meaning)   // partial, omit, ...

  datatype Expr =
    | Parens(inner: Expr)
    | Cast(inner: Expr)                                       // `as` and `satisfies`
    | Name(name: string)
    | HelperCall(helper: string, typeArgs: seq<TypeNode>)
    | ZObject(props: seq<Prop>)
    | ZString
    | ZNumber
    | ZBoolean
    | ZNull
    | ZAny                                                    // any and unknown
    | ZCustom(declared: Option<TypeNode>)
    | ZArray(item: Option<Expr>)
    | ZRecord(entries: Meaning)
    | ZUnion(options: seq<Expr>)
    | ZEnum(values: seq<string>)
    | ZLiteral(value: string)
    | Chain(receiver: Expr, modifier: Modifier)
    | Unread(means: Meaning)  // no call, another factory, or a factory whose argument is not the expected literal

  datatype Prop =
    | Assign(name: string, init: Expr)
    | Shorthand(name: string)
    | OtherProp(means: Meaning)  // a spread, a method or an accessor

  // `body` is None unless the function has exactly one `return` and it returns an expression.
  datatype Helper = Helper(typeParams: seq<string>, body: Option<Expr>)

  datatype SourceFile = SourceFile(
    variables: map<string, Expr>, functions: map<string, Helper>, imports: map<string, string>)

  // `foreign` is the meaning of whatever resolves to no declaration in the tree, and `absentAny`
  // says whether this release of zod lets a key declared `any` or `unknown` be left out.
  datatype Program = Program(files: map<string, SourceFile>, foreign: (string, Option<Json>) -> bool, absentAny: bool)

  // ----- resolution: a declaration of the file itself, else one import hop -----

  function ResolveVariable(prog: Program, file: string, name: string): Option<(string, Expr)> {
    if file !in prog.files then None
    else if name in prog.files[file].variables then Some((file, prog.files[file].variables[name]))
    else if name in prog.files[file].imports && prog.files[file].imports[name] in prog.files then
      var target := prog.files[file].imports[name];
      if name in prog.files[target].variables then Some((target, prog.files[target].variables[name])) else None
    else None
  }

  function ResolveHelper(prog: Program, file: string, name: string): Option<(string, Helper)> {
    if file !in prog.files then None
    else if name in prog.files[file].functions then Some((file, prog.files[file].functions[name]))
    else if name in prog.files[file].imports && prog.files[file].imports[name] in prog.files then
      var target := prog.files[file].imports[name];
      if name in prog.files[target].functions then Some((target, prog.files[target].functions[name])) else None
    else None
  }

  function BindArgs(typeParams: seq<string>, typeArgs: seq<TypeNode>): TypeParams {
    if typeParams == [] || typeArgs == [] then map[]
    else map[typeParams[0] := typeArgs[0]] + BindArgs(typeParams[1..], typeArgs[1..])
  }

  // ----- the reader -----

  const MAX_ZOD_DEPTH: nat := 10

  datatype ZodRead = ZodRead(schema: Schema, optional: bool)

  // How much reading is left below a depth.
  function Budget(depth: nat): nat {
    if depth <= MAX_ZOD_DEPTH + 2 then MAX_ZOD_DEPTH + 2 - depth else 0
  }

  function Read(prog: Program, file: string, params: TypeParams, e: Expr, depth: nat): Option<ZodRead>
    decreases Budget(depth), 2, 0
  {
    if depth > MAX_ZOD_DEPTH then None
    else match e
      case Parens(inner) => Read(prog, file, params, inner, depth + 1)
      case Cast(inner) => Read(prog, file, params, inner, depth + 1)
      case Name(name) => ReadName(prog, file, name, depth)
      case HelperCall(name, typeArgs) =>
        (match ResolveHelper(prog, file, name)
         case None => None
         case Some((target, helper)) =>
           if helper.body.None? then None
           else Read(prog, target, BindArgs(helper.typeParams, typeArgs), helper.body.value, depth + 1))
      case ZObject(props) =>
        (match ReadProps(prog, file, params, props, depth)
         case None => None
         case Some((properties, required)) =>
           Some(ZodRead(OfType(TypeObject).(properties := properties, required := required,
                          additional := Some(true), unknownKeys := Some(Stripped)), false)))
      case ZString => Plainly(OfType(TypeString))
      case ZNumber => Plainly(OfType(TypeNumber))
      case ZBoolean => Plainly(OfType(TypeBoolean))
      case ZNull => Plainly(OfType(TypeNull))
      case ZAny => Plainly(ANYTHING)
      case ZCustom(None) => Plainly(ANYTHING)
      case ZCustom(Some(t)) => Plainly(TypeToSchema(t, params))
      case ZArray(None) => Plainly(OfType(TypeArray).(items := Some(ANYTHING)))
      case ZArray(Some(item)) =>
        var items := Read(prog, file, params, item, depth + 1);
        Plainly(OfType(TypeArray).(items := Some(if items.Some? then items.value.schema else ANYTHING)))
      case ZRecord(_) => Plainly(OfType(TypeObject).(additional := Some(true)))
      case ZUnion(options) =>
        (match ReadAll(prog, file, params, options, depth)
         case None => None
         case Some(schemas) =>
           if schemas == [] then None
           else if AllEnums(schemas) then Plainly(EnumOf(Dedup(AllValues(schemas))))
           else Plainly(ANYTHING.(anyOf := schemas)))
      case ZEnum(values) => Plainly(EnumOf(values))
      case ZLiteral(value) => Plainly(EnumOf([value]))
      case Chain(receiver, modifier) =>
        (match Read(prog, file, params, receiver, depth + 1)
         case None => None
         case Some(inner) => Modify(modifier, inner))
      case Unread(_) => None
  }

  // A schema constant by name, read with no type parameters in scope.
  function ReadName(prog: Program, file: string, name: string, depth: nat): Option<ZodRead>
    requires depth <= MAX_ZOD_DEPTH + 1
    decreases Budget(depth), 1, 0
  {
    match ResolveVariable(prog, file, name)
    case None => None
    case Some((target, init)) => Read(prog, target, map[], init, depth + 1)
  }

  function ReadProp(prog: Program, file: string, params: TypeParams, prop: Prop, depth: nat): Option<ZodRead>
    requires depth <= MAX_ZOD_DEPTH
    decreases Budget(depth), 0, 0
  {
    match prop
    case Assign(_, init) => Read(prog, file, params, init, depth + 1)
    case Shorthand(name) => ReadName(prog, file, name, depth + 1)
    case OtherProp(_) => None
  }

  function ReadProps(prog: Program, file: string, params: TypeParams, props: seq<Prop>, depth: nat)
    : Option<(map<string, Schema>, seq<string>)>
    requires depth <= MAX_ZOD_DEPTH
    decreases Budget(depth), 1, |props|
  {
    if props == [] then Some((map[], []))
    else
      var first := ReadProp(prog, file, params, props[0], depth);
      var rest := ReadProps(prog, file, params, props[1..], depth);
      if first.None? || rest.None? then None
      else
        var (properties, required) := rest.value;
        Some((map[props[0].name := first.value.schema] + properties,
              (if first.value.optional then [] else [props[0].name]) + required))
  }

  function ReadAll(prog: Program, file: string, params: TypeParams, es: seq<Expr>, depth: nat): Option<seq<Schema>>
    requires depth <= MAX_ZOD_DEPTH
    decreases Budget(depth), 1, |es|
  {
    if es == [] then Some([])
    else
      var first := Read(prog, file, params, es[0], depth + 1);
      var rest := ReadAll(prog, file, params, es[1..], depth);
      if first.None? || rest.None? then None else Some([first.value.schema] + rest.value)
  }

  function Plainly(schema: Schema): Option<ZodRead> {
    Some(ZodRead(schema, false))
  }

  predicate AllEnums(schemas: seq<Schema>) {
    forall i :: 0 <= i < |schemas| ==> schemas[i].typ == Some(TypeString) && schemas[i].enm.Some?
  }

  function AllValues(schemas: seq<Schema>): seq<string>
    requires AllEnums(schemas)
  {
    if schemas == [] then [] else schemas[0].enm.value + AllValues(schemas[1..])
  }

  function Modify(modifier: Modifier, inner: ZodRead): Option<ZodRead> {
    var s := inner.schema;
    match modifier
    case Optional => Some(inner.(optional := true))
    case Nullish => Some(inner.(optional := true))
    case Default => Some(inner.(optional := true))
    case Nullable => Some(inner.(schema := s.(nullable := true)))
    case PassthroughKeys => Some(inner.(schema := s.(unknownKeys := Some(Passthrough))))
    case StrictKeys => Some(inner.(schema := s.(additional := Some(false), unknownKeys := Some(Rejected))))
    case Min(Literal(n)) =>
      Some(inner.(schema := match s.typ
                            case Some(TypeString) => s.(minLength := Some(n))
                            case Some(TypeArray) => s.(minItems := Some(n))
                            case Some(TypeNumber) => s.(minimum := Some(n))
                            case _ => s))
    case Max(Literal(n)) =>
      Some(inner.(schema := match s.typ
                            case Some(TypeString) => s.(maxLength := Some(n))
                            case Some(TypeArray) => s.(maxItems := Some(n))
                            case Some(TypeNumber) => s.(maximum := Some(n))
                            case _ => s))
    case Int => Some(inner.(schema := s.(typ := Some(TypeInteger))))
    case Positive => Some(inner.(schema := s.(exclusiveMinimum := Some(0.0))))
    case OtherModifier(_) => None
    case _ => Some(inner)
  }
}
