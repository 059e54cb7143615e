/** Reading a helper's type under a map of its type arguments, against substituting the arguments
    into the type first and reading the result with no parameters in scope. */
module TypeSubstitution {
  import opened Lists
  import opened JsonSchema
  import opened TypeNodes

  function Substitute(t: TypeNode, params: TypeParams): TypeNode
    decreases t
  {
    match t
    case Union(members) => Union(SubstituteAll(members, params))
    case Array(element) => Array(Substitute(element, params))
    case TypeLiteral(sigs) => TypeLiteral(SubstituteSignatures(sigs, params))
    case Reference(name, _) => if name in params then params[name] else t
    case _ => t
  }

  function SubstituteAll(ts: seq<TypeNode>, params: TypeParams): (r: seq<TypeNode>)
    ensures |r| == |ts| && forall i :: 0 <= i < |ts| ==> r[i] == Substitute(ts[i], params)
    decreases ts
  {
    if ts == [] then [] else [Substitute(ts[0], params)] + SubstituteAll(ts[1..], params)
  }

  function SubstituteSignatures(sigs: seq<Signature>, params: TypeParams): (r: seq<Signature>)
    ensures |r| == |sigs|
    ensures forall i :: 0 <= i < |sigs| ==>
      r[i].Property? == sigs[i].Property? &&
      (sigs[i].Property? ==>
         && r[i].name == sigs[i].name && r[i].question == sigs[i].question
         && r[i].typ == if sigs[i].typ.Some? then Some(Substitute(sigs[i].typ.value, params)) else None)
    decreases sigs
  {
    if sigs == [] then []
    else
      var first :=
        match sigs[0]
        case Property(name, typ, question) =>
          Property(name, if typ.Some? then Some(Substitute(typ.value, params)) else None, question)
        case OtherSignature => OtherSignature;
      [first] + SubstituteSignatures(sigs[1..], params)
  }

  // No union node sees a parameter turn into null or undefined, and none becomes a closed list of
  // literals only by substitution.
  ghost predicate SubstitutionSafe(t: TypeNode, params: TypeParams)
    decreases t
  {
    match t
    case Union(members) =>
      && (forall i :: 0 <= i < |members| ==> SubstitutionSafe(members[i], params))
      && (forall i :: 0 <= i < |members| && IsNullish(Substitute(members[i], params)) ==> IsNullish(members[i]))
      && (|NonNull(members)| > 1 && AllLiterals(SubstituteAll(NonNull(members), params)) ==>
          AllLiterals(NonNull(members)))
    case Array(element) => SubstitutionSafe(element, params)
    case TypeLiteral(sigs) =>
      forall i :: 0 <= i < |sigs| && sigs[i].Property? && sigs[i].typ.Some? ==>
          SubstitutionSafe(sigs[i].typ.value, params)
    case _ => true
  }

  lemma {:induction false} NonNullSubstitutes(members: seq<TypeNode>, params: TypeParams)
    requires forall i :: 0 <= i < |members| && IsNullish(Substitute(members[i], params)) ==> IsNullish(members[i])
    ensures NonNull(SubstituteAll(members, params)) == SubstituteAll(NonNull(members), params)
  {
    if members != [] {
      NonNullSubstitutes(members[1..], params);
      assert SubstituteAll(members, params)[1..] == SubstituteAll(members[1..], params);
    }
  }

  /** Reading under the parameter map equals reading the substituted type. */
  lemma {:induction false} ReadIsReadSubstituted(t: TypeNode, params: TypeParams)
    requires SubstitutionSafe(t, params)
    ensures TypeToSchema(t, params) == TypeToSchema(Substitute(t, params), map[])
    decreases t, 1
  {
    match t
    case Union(members) =>
      if NonNull(members) != [] {
        FirstMemberOf(members);
        ReadIsReadSubstituted(NonNull(members)[0], params);
      }
      UnionReadSubstituted(members, params);
    case Array(element) => ReadIsReadSubstituted(element, params);
    case TypeLiteral(sigs) => SignaturesReadSubstituted(sigs, params);
    case _ =>
  }

  lemma UnionReadSubstituted(members: seq<TypeNode>, params: TypeParams)
    requires SubstitutionSafe(Union(members), params)
    requires NonNull(members) != [] ==>
               TypeToSchema(NonNull(members)[0], params) == TypeToSchema(Substitute(NonNull(members)[0], params), map[])
    ensures TypeToSchema(Union(members), params) == TypeToSchema(Union(SubstituteAll(members, params)), map[])
  {
    NonNullSubstitutes(members, params);
    var nonNull, after := NonNull(members), NonNull(SubstituteAll(members, params));
    if |nonNull| > 1 && AllLiterals(nonNull) {
      assert after == nonNull;
    }
    assert UnionBase(members, params) == UnionBase(SubstituteAll(members, params), map[]);
  }

  lemma FirstMemberOf(members: seq<TypeNode>)
    requires NonNull(members) != []
    ensures exists i :: 0 <= i < |members| && members[i] == NonNull(members)[0]
  {
  }

  lemma {:induction false} SignaturesReadSubstituted(sigs: seq<Signature>, params: TypeParams)
    requires forall i :: 0 <= i < |sigs| && sigs[i].Property? && sigs[i].typ.Some? ==>
        SubstitutionSafe(sigs[i].typ.value, params)
    ensures PropertySchemas(sigs, params) == PropertySchemas(SubstituteSignatures(sigs, params), map[])
    ensures RequiredNames(sigs) == RequiredNames(SubstituteSignatures(sigs, params))
    decreases sigs, 0
  {
    if sigs != [] {
      SignaturesReadSubstituted(sigs[1..], params);
      assert SubstituteSignatures(sigs, params)[1..] == SubstituteSignatures(sigs[1..], params);
      if sigs[0].Property? && sigs[0].typ.Some? {
        ReadIsReadSubstituted(sigs[0].typ.value, params);
      }
    }
  }

  // ----- where the two ways of reading differ -----

  predicate NoneNullish(members: seq<TypeNode>) {
    forall i :: 0 <= i < |members| ==> !IsNullish(members[i])
  }

  lemma {:induction false} NothingDropped(members: seq<TypeNode>)
    requires NoneNullish(members)
    ensures NonNull(members) == members
  {
    if members != [] {
      NothingDropped(members[1..]);
    }
  }

  lemma UnionNotNullable(members: seq<TypeNode>, params: TypeParams)
    requires members != [] && NoneNullish(members) && !TypeToSchema(members[0], params).nullable
    ensures !TypeToSchema(Union(members), params).nullable
  {
    NothingDropped(members);
  }

  lemma UnionNullable(members: seq<TypeNode>, params: TypeParams, i: nat)
    requires i < |members| && IsNullish(members[i])
    ensures TypeToSchema(Union(members), params).nullable
  {
    NonNullKeeps(members);
  }

  lemma SubstituteUnion(members: seq<TypeNode>, params: TypeParams)
    ensures Substitute(Union(members), params) == Union(SubstituteAll(members, params))
  {
  }

  /** A union with no null or undefined member, whose first member is not nullable: as soon as some
      member turns null or undefined, only the substituted type is read as nullable. */
  lemma {:induction false} NullArgumentDiffers(members: seq<TypeNode>, params: TypeParams, i: nat)
    requires NoneNullish(members) && i < |members| && !TypeToSchema(members[0], params).nullable
    requires IsNullish(Substitute(members[i], params))
    ensures TypeToSchema(Union(members), params) != TypeToSchema(Substitute(Union(members), params), map[])
  {
    SubstituteUnion(members, params);
    UnionNotNullable(members, params);
    UnionNullable(SubstituteAll(members, params), map[], i);
  }

  lemma LiteralOnce(t: TypeNode, params: TypeParams)
    requires Substitute(t, params).StringLiteral?
    ensures TypeToSchema(t, params) == EnumOf([Substitute(t, params).value])
  {
  }

  lemma LiteralsRead(members: seq<TypeNode>)
    requires |members| > 1 && AllLiterals(members)
    ensures TypeToSchema(Union(members), map[]) == EnumOf(LiteralValues(members))
  {
    NothingDropped(members);
  }

  lemma FirstMemberRead(members: seq<TypeNode>, params: TypeParams)
    requires members != [] && NoneNullish(members) && !AllLiterals(members)
    ensures TypeToSchema(Union(members), params) == TypeToSchema(members[0], params)
  {
    NothingDropped(members);
  }

  /** A union of several members, none of them null or undefined, that become all literals only by
      substitution: only the substituted type is read as an enum of all of them. */
  lemma {:induction false} LiteralArgumentDiffers(members: seq<TypeNode>, params: TypeParams)
    requires NoneNullish(members) && |members| > 1 && !AllLiterals(members)
    requires AllLiterals(SubstituteAll(members, params))
    ensures TypeToSchema(Union(members), params) != TypeToSchema(Substitute(Union(members), params), map[])
  {
    var after := SubstituteAll(members, params);
    SubstituteUnion(members, params);
    FirstMemberRead(members, params);
    LiteralOnce(members[0], params);
    LiteralsRead(after);
    assert |LiteralValues(after)| > 1;
  }

  // No member turns null or undefined, and the members do not become all literals.
  ghost predicate MembersKeepShape(members: seq<TypeNode>, params: TypeParams) {
    && (forall i :: 0 <= i < |members| ==> !IsNullish(Substitute(members[i], params)))
    && (|members| > 1 && AllLiterals(SubstituteAll(members, params)) ==> AllLiterals(members))
  }

  /** So over members that are read alike and a first one that is not nullable, a union without null
      or undefined is read alike exactly when its members keep their shape. */
  lemma {:induction false} UnionReadAlikeExactly(members: seq<TypeNode>, params: TypeParams)
    requires members != [] && NoneNullish(members) && !TypeToSchema(members[0], params).nullable
    requires forall i :: 0 <= i < |members| ==> SubstitutionSafe(members[i], params)
    ensures TypeToSchema(Union(members), params) == TypeToSchema(Substitute(Union(members), params), map[])
            <==> MembersKeepShape(members, params)
  {
    if MembersKeepShape(members, params) {
      NothingDropped(members);
      ReadIsReadSubstituted(Union(members), params);
    } else if exists i :: 0 <= i < |members| && IsNullish(Substitute(members[i], params)) {
      var i :| 0 <= i < |members| && IsNullish(Substitute(members[i], params));
      NullArgumentDiffers(members, params, i);
    } else {
      LiteralArgumentDiffers(members, params);
    }
  }

  // ----- substitution keeps the meaning -----

  ghost function ArgumentMeanings(params: TypeParams): TypeMeanings {
    map x | x in params :: v => AcceptsType(params[x], map[], v)
  }

  /** Substituting the arguments describes the same values as binding the parameters to them. */
  lemma {:induction false} SubstitutionKeepsMeaning(t: TypeNode, params: TypeParams, v: Option<Json>)
    ensures AcceptsType(Substitute(t, params), map[], v) <==> AcceptsType(t, ArgumentMeanings(params), v)
    decreases t
  {
    match t
    case Union(members) =>
      forall i | 0 <= i < |members|
        ensures AcceptsType(SubstituteAll(members, params)[i], map[], v) <==>
            AcceptsType(members[i], ArgumentMeanings(params), v)
      {
        SubstitutionKeepsMeaning(members[i], params, v);
      }
    case Array(element) =>
      forall w: Json ensures AcceptsType(Substitute(element, params), map[], Some(w)) <==>
          AcceptsType(element, ArgumentMeanings(params), Some(w)) {
        SubstitutionKeepsMeaning(element, params, Some(w));
      }
    case TypeLiteral(sigs) =>
      if v.Some? && v.value.JObj? {
        forall i | 0 <= i < |sigs| && sigs[i].Property?
          ensures AcceptsProperty(SubstituteSignatures(sigs, params)[i], map[], v.value.fields)
                  <==> AcceptsProperty(sigs[i], ArgumentMeanings(params), v.value.fields)
        {
          if sigs[i].typ.Some? && sigs[i].name in v.value.fields {
            SubstitutionKeepsMeaning(sigs[i].typ.value, params, Some(v.value.fields[sigs[i].name]));
          }
        }
      }
    case _ =>
  }
}
