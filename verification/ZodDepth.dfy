/** The depth bound: reading closer to the root never loses information. A read that succeeds at
    some depth succeeds at every smaller one, with the same optional flag and a schema that is at
    least as tight; it can be tighter, because an array item beyond the bound becomes `{}`. */
module ZodDepth {
  import opened Lists
  import opened JsonSchema
  import opened TypeNodes
  import opened ZodReader

  // t says everything s says, except that an `items: {}` of s may be something else in t.
  ghost predicate Tighter(t: Schema, s: Schema)
    decreases s
  {
    SameKeywords(t, s) && TighterParts(t, s)
  }

  predicate SameKeywords(t: Schema, s: Schema) {
    && t == s.(properties := t.properties, items := t.items, anyOf := t.anyOf)
    && t.properties.Keys == s.properties.Keys
  }

  ghost predicate TighterParts(t: Schema, s: Schema)
    requires t.properties.Keys == s.properties.Keys
    decreases s, 0
  {
    && (forall k :: k in s.properties ==> Tighter(t.properties[k], s.properties[k]))
    && t.items.Some? == s.items.Some?
    && (s.items.Some? ==> s.items.value == ANYTHING || Tighter(t.items.value, s.items.value))
    && |t.anyOf| == |s.anyOf|
    && (forall i :: 0 <= i < |s.anyOf| ==> Tighter(t.anyOf[i], s.anyOf[i]))
  }

  lemma SameKeywordsShallow(t: Schema, s: Schema, v: Json)
    requires SameKeywords(t, s)
    ensures ShallowOk(t, v) == ShallowOk(s, v)
  {
  }

  /** Whatever is valid under the tighter schema is valid under the looser one. */
  lemma {:induction false} TighterImplies(t: Schema, s: Schema, v: Json)
    requires Tighter(t, s) && Valid(t, v)
    ensures Valid(s, v)
    decreases s, 1
  {
    SameKeywordsShallow(t, s, v);
    if !(s.nullable && v.JNull?) {
      PartsImply(t, s, v);
    }
  }

  lemma {:induction false} PartsImply(t: Schema, s: Schema, v: Json)
    requires SameKeywords(t, s) && TighterParts(t, s) && DeepOk(t, v)
    ensures DeepOk(s, v)
    decreases s, 0
  {
    if v.JObj? {
      forall k | k in s.properties && k in v.fields ensures Valid(s.properties[k], v.fields[k]) {
        TighterImplies(t.properties[k], s.properties[k], v.fields[k]);
      }
    }
    if v.JArr? && s.items.Some? && s.items.value != ANYTHING {
      forall i | 0 <= i < |v.elems| ensures Valid(s.items.value, v.elems[i]) {
        TighterImplies(t.items.value, s.items.value, v.elems[i]);
      }
    }
    if s.anyOf != [] {
      var i :| 0 <= i < |t.anyOf| && Valid(t.anyOf[i], v);
      TighterImplies(t.anyOf[i], s.anyOf[i], v);
    }
  }

  lemma {:induction false} TighterReflexive(s: Schema)
    ensures Tighter(s, s)
    decreases s
  {
    forall k | k in s.properties ensures Tighter(s.properties[k], s.properties[k]) {
      TighterReflexive(s.properties[k]);
    }
    if s.items.Some? {
      TighterReflexive(s.items.value);
    }
    forall i | 0 <= i < |s.anyOf| ensures Tighter(s.anyOf[i], s.anyOf[i]) {
      TighterReflexive(s.anyOf[i]);
    }
  }

  ghost predicate AsTight(near: Option<ZodRead>, far: Option<ZodRead>) {
    far.Some? ==>
      near.Some? && near.value.optional == far.value.optional && Tighter(near.value.schema, far.value.schema)
  }

  // A modifier neither looks at nor changes the parts of a schema.
  lemma {:induction false} ModifyCommutes(modifier: Modifier, s: Schema, t: Schema, optional: bool)
    requires t == s.(properties := t.properties, items := t.items, anyOf := t.anyOf)
    requires Modify(modifier, ZodRead(s, optional)).Some?
    ensures Modify(modifier, ZodRead(t, optional)).Some?
    ensures var m, n := Modify(modifier, ZodRead(s, optional)).value, Modify(modifier, ZodRead(t, optional)).value;
            && n.optional == m.optional
            && n.schema == m.schema.(properties := t.properties, items := t.items, anyOf := t.anyOf)
            && m.schema.properties == s.properties && m.schema.items == s.items && m.schema.anyOf == s.anyOf
  {
    match modifier
    case Min(_) => BoundCommutes(modifier, s, t, optional);
    case Max(_) => BoundCommutes(modifier, s, t, optional);
    case _ =>
  }

  lemma BoundCommutes(modifier: Modifier, s: Schema, t: Schema, optional: bool)
    requires t == s.(properties := t.properties, items := t.items, anyOf := t.anyOf)
    requires modifier.Min? || modifier.Max?
    ensures var m, n := Modify(modifier, ZodRead(s, optional)).value, Modify(modifier, ZodRead(t, optional)).value;
            && n.optional == m.optional
            && n.schema == m.schema.(properties := t.properties, items := t.items, anyOf := t.anyOf)
            && m.schema.properties == s.properties && m.schema.items == s.items && m.schema.anyOf == s.anyOf
  {
  }

  // So it treats a tighter schema as it treats the looser one.
  lemma {:induction false} ModifyKeepsTight(modifier: Modifier, near: ZodRead, far: ZodRead)
    requires AsTight(Some(near), Some(far))
    ensures AsTight(Modify(modifier, near), Modify(modifier, far))
  {
    if Modify(modifier, far).Some? {
      assert far == ZodRead(far.schema, far.optional) && near == ZodRead(near.schema, far.optional);
      ModifyCommutes(modifier, far.schema, near.schema, far.optional);
      PartsDependOn(near.schema, far.schema, Modify(modifier, near).value.schema, Modify(modifier, far).value.schema);
    }
  }

  lemma {:induction false} PartsDependOn(t: Schema, s: Schema, t': Schema, s': Schema)
    requires Tighter(t, s) && SameKeywords(t', s')
    requires t'.properties == t.properties && t'.items == t.items && t'.anyOf == t.anyOf
    requires s'.properties == s.properties && s'.items == s.items && s'.anyOf == s.anyOf
    ensures Tighter(t', s')
  {
  }

  /** Reading at a smaller depth succeeds whenever reading at a larger one does, and is as tight. */
  lemma {:induction false} SmallerDepthReadsMore(prog: Program, file: string, params: TypeParams, e: Expr, near: nat,
                                                 far: nat)
    requires near <= far
    ensures AsTight(Read(prog, file, params, e, near), Read(prog, file, params, e, far))
    decreases Budget(far), 2, 0
  {
    if Read(prog, file, params, e, far).Some? {
      var read := Read(prog, file, params, e, far).value;
      match e
      case Parens(inner) => SmallerDepthReadsMore(prog, file, params, inner, near + 1, far + 1);
      case Cast(inner) => SmallerDepthReadsMore(prog, file, params, inner, near + 1, far + 1);
      case Name(name) => NameReadsMore(prog, file, params, name, near, far);
      case HelperCall(name, typeArgs) =>
        var (target, helper) := ResolveHelper(prog, file, name).value;
        SmallerDepthReadsMore(prog, target, BindArgs(helper.typeParams, typeArgs), helper.body.value, near + 1,
                              far + 1);
      case ZObject(_) => PartsReadMore(prog, file, params, e, near, far);
      case ZUnion(_) => PartsReadMore(prog, file, params, e, near, far);
      case ZArray(_) => PartsReadMore(prog, file, params, e, near, far);
      case Chain(receiver, modifier) =>
        SmallerDepthReadsMore(prog, file, params, receiver, near + 1, far + 1);
        ModifyKeepsTight(modifier, Read(prog, file, params, receiver, near + 1).value,
                         Read(prog, file, params, receiver, far + 1).value);
      case _ => TighterReflexive(read.schema);
    }
  }

  lemma {:induction false} PartsReadMore(prog: Program, file: string, params: TypeParams, e: Expr, near: nat, far: nat)
    requires near <= far && (e.ZObject? || e.ZUnion? || e.ZArray?) && Read(prog, file, params, e, far).Some?
    ensures AsTight(Read(prog, file, params, e, near), Read(prog, file, params, e, far))
    decreases Budget(far), 1, 0, 1
  {
    match e
    case ZObject(props) => PropsReadMore(prog, file, params, props, near, far);
    case ZUnion(options) => AllReadMore(prog, file, params, options, near, far);
    case ZArray(item) =>
      if item.Some? {
        SmallerDepthReadsMore(prog, file, params, item.value, near + 1, far + 1);
      }
  }

  lemma {:induction false} NameReadsMore(prog: Program, file: string, params: TypeParams, name: string, near: nat,
                                         far: nat)
    requires near <= far <= MAX_ZOD_DEPTH + 1
    ensures AsTight(ReadName(prog, file, name, near), ReadName(prog, file, name, far))
    decreases Budget(far), 1, 0, 0
  {
    var r := ResolveVariable(prog, file, name);
    if r.Some? {
      SmallerDepthReadsMore(prog, r.value.0, map[], r.value.1, near + 1, far + 1);
    }
  }

  lemma {:induction false} PropReadsMore(prog: Program, file: string, params: TypeParams, prop: Prop, near: nat,
                                         far: nat)
    requires near <= far <= MAX_ZOD_DEPTH
    ensures AsTight(ReadProp(prog, file, params, prop, near), ReadProp(prog, file, params, prop, far))
    decreases Budget(far), 0, 0, 1
  {
    match prop
    case Assign(_, init) => SmallerDepthReadsMore(prog, file, params, init, near + 1, far + 1);
    case Shorthand(name) => NameReadsMore(prog, file, params, name, near + 1, far + 1);
    case OtherProp(_) =>
  }

  lemma {:induction false} PropsReadMore(prog: Program, file: string, params: TypeParams, props: seq<Prop>, near: nat,
                                         far: nat)
    requires near <= far <= MAX_ZOD_DEPTH && ReadProps(prog, file, params, props, far).Some?
    ensures ReadProps(prog, file, params, props, near).Some?
    ensures TighterProps(ReadProps(prog, file, params, props, near).value,
                         ReadProps(prog, file, params, props, far).value)
    decreases Budget(far), 0, 1, |props|
  {
    if props != [] {
      PropsReadMore(prog, file, params, props[1..], near, far);
      PropReadsMore(prog, file, params, props[0], near, far);
    }
  }

  ghost predicate TighterProps(near: (map<string, Schema>, seq<string>), far: (map<string, Schema>, seq<string>)) {
    && near.1 == far.1
    && near.0.Keys == far.0.Keys
    && forall k :: k in far.0 ==> Tighter(near.0[k], far.0[k])
  }

  lemma {:induction false} AllReadMore(prog: Program, file: string, params: TypeParams, es: seq<Expr>, near: nat,
                                       far: nat)
    requires near <= far <= MAX_ZOD_DEPTH && ReadAll(prog, file, params, es, far).Some?
    ensures ReadAll(prog, file, params, es, near).Some?
    ensures var ts, ss := ReadAll(prog, file, params, es, near).value, ReadAll(prog, file, params, es, far).value;
            && |ts| == |ss| && (forall i :: 0 <= i < |ss| ==> Tighter(ts[i], ss[i]))
            && AllEnums(ts) == AllEnums(ss) && (AllEnums(ss) ==> AllValues(ts) == AllValues(ss))
    decreases Budget(far), 0, 1, |es|
  {
    if es != [] {
      AllReadMore(prog, file, params, es[1..], near, far);
      SmallerDepthReadsMore(prog, file, params, es[0], near + 1, far + 1);
      var ts, ss := ReadAll(prog, file, params, es, near).value, ReadAll(prog, file, params, es, far).value;
      assert ts[1..] == ReadAll(prog, file, params, es[1..], near).value;
      assert ss[1..] == ReadAll(prog, file, params, es[1..], far).value;
      EnumsAgree(ts, ss);
    }
  }

  lemma {:induction false} EnumsAgree(ts: seq<Schema>, ss: seq<Schema>)
    requires |ts| == |ss| && forall i :: 0 <= i < |ss| ==> ts[i].typ == ss[i].typ && ts[i].enm == ss[i].enm
    ensures AllEnums(ts) == AllEnums(ss) && (AllEnums(ss) ==> AllValues(ts) == AllValues(ss))
  {
    if ss != [] {
      EnumsAgree(ts[1..], ss[1..]);
      assert AllEnums(ss) ==> AllEnums(ss[1..]);
    }
  }

  /** The read is not the same at every depth: the last depth at which an array can be read leaves
      its items unread. */
  lemma {:induction false} DeepestArrayForgetsItems(prog: Program, file: string)
    ensures Read(prog, file, map[], ZArray(Some(ZString)), MAX_ZOD_DEPTH) ==
              Plainly(OfType(TypeArray).(items := Some(ANYTHING)))
    ensures forall depth: nat :: depth < MAX_ZOD_DEPTH ==>
              Read(prog, file, map[], ZArray(Some(ZString)), depth)
                  == Plainly(OfType(TypeArray).(items := Some(OfType(TypeString))))
  {
    assert Read(prog, file, map[], ZString, MAX_ZOD_DEPTH + 1) == None;
  }

  // ----- cycles -----

  // An expression, and the file whose names it is read with.
  datatype Node = Node(file: string, e: Expr)

  // Reading from is impossible without reading to: everything but the items of an array is needed.
  ghost predicate Needs(prog: Program, from: Node, to: Node) {
    match from.e
    case Parens(inner) => to == Node(from.file, inner)
    case Cast(inner) => to == Node(from.file, inner)
    case Name(name) => ResolveVariable(prog, from.file, name) == Some((to.file, to.e))
    case HelperCall(name, _) =>
      var r := ResolveHelper(prog, from.file, name);
      r.Some? && r.value.1.body.Some? && to == Node(r.value.0, r.value.1.body.value)
    case ZObject(props) => exists i :: 0 <= i < |props| && NeededByProp(prog, from.file, props[i], to)
    case ZUnion(options) => exists i :: 0 <= i < |options| && to == Node(from.file, options[i])
    case Chain(receiver, _) => to == Node(from.file, receiver)
    case _ => false
  }

  ghost predicate NeededByProp(prog: Program, file: string, prop: Prop, to: Node) {
    match prop
    case Assign(_, init) => to.file == file && to.e == init
    case Shorthand(name) => ResolveVariable(prog, file, name) == Some((to.file, to.e))
    case OtherProp(_) => false
  }

  ghost predicate NeedsOneOf(prog: Program, from: Node, knot: set<Node>) {
    exists to :: to in knot && Needs(prog, from, to)
  }

  // Each node of the knot needs one of the knot: a cycle, or whatever leads into one.
  ghost predicate IsKnot(prog: Program, knot: set<Node>) {
    forall from {:trigger NeedsOneOf(prog, from, knot)} :: from in knot ==> NeedsOneOf(prog, from, knot)
  }

  ghost predicate UnreadBelow(prog: Program, node: Node, depth: nat) {
    forall params, deeper: nat | depth < deeper <= MAX_ZOD_DEPTH + 2 ::
      Read(prog, node.file, params, node.e, deeper) == None
  }

  /** Nothing on a cycle of constants and helpers, or leading into one, is ever readable: at no depth and
      with no type arguments. */
  lemma {:induction false} CyclicConstantUnread(prog: Program, knot: set<Node>, from: Node, params: TypeParams,
                                                depth: nat)
    requires IsKnot(prog, knot) && from in knot
    ensures Read(prog, from.file, params, from.e, depth) == None
    decreases Budget(depth), 1
  {
    if depth <= MAX_ZOD_DEPTH {
      assert NeedsOneOf(prog, from, knot);
      var to :| to in knot && Needs(prog, from, to);
      KnotUnreadBelow(prog, knot, to, depth);
      NeededUnread(prog, from, to, params, depth);
    }
  }

  // The shortest cycle: an object literal that names its own constant.
  lemma SelfNamedUnread(prog: Program, file: string, params: TypeParams, name: string, props: seq<Prop>, i: nat,
                        depth: nat)
    requires ResolveVariable(prog, file, name) == Some((file, ZObject(props)))
    requires i < |props| && props[i] == Shorthand(name)
    ensures Read(prog, file, params, ZObject(props), depth) == None
  {
    var self := Node(file, ZObject(props));
    assert NeededByProp(prog, file, props[i], self);
    assert NeedsOneOf(prog, self, {self});
    CyclicConstantUnread(prog, {self}, self, params, depth);
  }

  lemma {:induction false} KnotUnreadBelow(prog: Program, knot: set<Node>, node: Node, depth: nat)
    requires depth <= MAX_ZOD_DEPTH && IsKnot(prog, knot) && node in knot
    ensures UnreadBelow(prog, node, depth)
    decreases Budget(depth), 0
  {
    forall params, deeper: nat | depth < deeper <= MAX_ZOD_DEPTH + 2
      ensures Read(prog, node.file, params, node.e, deeper) == None
    {
      CyclicConstantUnread(prog, knot, node, params, deeper);
    }
  }

  // What is needed being unreadable one or two levels further down is enough.
  lemma {:induction false} NeededUnread(prog: Program, from: Node, to: Node, params: TypeParams, depth: nat)
    requires depth <= MAX_ZOD_DEPTH && Needs(prog, from, to) && UnreadBelow(prog, to, depth)
    ensures Read(prog, from.file, params, from.e, depth) == None
  {
    match from.e
    case ZObject(props) =>
      var i :| 0 <= i < |props| && NeededByProp(prog, from.file, props[i], to);
      NeededPropUnread(prog, from.file, params, props[i], to, depth);
      OneUnreadProp(prog, from.file, params, props, i, depth);
    case ZUnion(options) =>
      var i :| 0 <= i < |options| && to == Node(from.file, options[i]);
      assert Read(prog, to.file, params, to.e, depth + 1) == None;
      OneUnreadOption(prog, from.file, params, options, i, depth);
    case Name(name) =>
      assert Read(prog, to.file, map[], to.e, depth + 1) == None;
      assert Read(prog, from.file, params, from.e, depth) == ReadName(prog, from.file, name, depth);
    case HelperCall(name, typeArgs) =>
      var helper := ResolveHelper(prog, from.file, name).value.1;
      assert Read(prog, to.file, BindArgs(helper.typeParams, typeArgs), to.e, depth + 1) == None;
    case Parens(_) => assert Read(prog, to.file, params, to.e, depth + 1) == None;
    case Cast(_) => assert Read(prog, to.file, params, to.e, depth + 1) == None;
    case Chain(_, _) => assert Read(prog, to.file, params, to.e, depth + 1) == None;
  }

  lemma NeededPropUnread(prog: Program, file: string, params: TypeParams, prop: Prop, to: Node, depth: nat)
    requires depth <= MAX_ZOD_DEPTH && NeededByProp(prog, file, prop, to) && UnreadBelow(prog, to, depth)
    ensures ReadProp(prog, file, params, prop, depth) == None
  {
    assert Read(prog, to.file, params, to.e, depth + 1) == None;
    assert Read(prog, to.file, map[], to.e, depth + 2) == None;
    assert prop.Shorthand? ==>
        ReadProp(prog, file, params, prop, depth) == ReadName(prog, file, prop.name, depth + 1);
  }

  lemma {:induction false} OneUnreadOption(prog: Program, file: string, params: TypeParams, es: seq<Expr>, i: nat,
                                           depth: nat)
    requires depth <= MAX_ZOD_DEPTH && i < |es| && Read(prog, file, params, es[i], depth + 1) == None
    ensures ReadAll(prog, file, params, es, depth) == None
    decreases es
  {
    if i > 0 {
      OneUnreadOption(prog, file, params, es[1..], i - 1, depth);
    }
  }

  lemma {:induction false} OneUnreadProp(prog: Program, file: string, params: TypeParams, props: seq<Prop>, i: nat,
                                         depth: nat)
    requires depth <= MAX_ZOD_DEPTH && i < |props| && ReadProp(prog, file, params, props[i], depth) == None
    ensures ReadProps(prog, file, params, props, depth) == None
    decreases props
  {
    if i > 0 {
      OneUnreadProp(prog, file, params, props[1..], i - 1, depth);
    }
  }
}
