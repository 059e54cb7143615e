/** The corners where the emitted schema rejects a body that the validator accepts, each stated for
    the whole family of expressions it affects, with its exact condition. */
module ZodCorners {
  import opened Lists
  import opened Text
  import opened JsonSchema
  import opened TypeNodes
  import opened ZodReader
  import opened ZodMeaning
  import opened ZodSoundness

  lemma AcceptsWithin(n: nat, prog: Program, file: string, e: Expr, v: Json)
    requires AcceptsN(n, prog, file, map[], e, Unset, Some(v))
    ensures Accepts(prog, file, e, v)
  {
  }

  // The schema documented for the expression rejects nothing that zod accepts.
  ghost predicate Truthful(prog: Program, file: string, e: Expr)
    requires Read(prog, file, map[], e, 0).Some?
  {
    forall v: Json | Accepts(prog, file, e, v) :: Valid(Read(prog, file, map[], e, 0).value.schema, v)
  }

  // base under a list of modifiers, the last of them outermost.
  function Chained(base: Expr, mods: seq<Modifier>): Expr {
    if mods == [] then base else Chain(Chained(base, mods[..|mods| - 1]), mods[|mods| - 1])
  }

  // ----- string lengths are counted in code units by zod, in characters by JSON Schema -----

  function StringMin(n: real): Expr {
    Chain(ZString, Min(Literal(n)))
  }

  /** `z.string().min(n)` is documented truthfully exactly when n is at most one: above that, a
      string of supplementary characters satisfies zod while it is too short for the schema. */
  lemma {:induction false} StringMinimumExact(prog: Program, file: string, n: real)
    ensures (forall s: string :: Accepts(prog, file, StringMin(n), JStr(s)) ==>
               Valid(Read(prog, file, map[], StringMin(n), 0).value.schema, JStr(s)))
            <==> n <= 1.0
  {
    if n <= 1.0 {
      forall s: string | Accepts(prog, file, StringMin(n), JStr(s))
        ensures Valid(Read(prog, file, map[], StringMin(n), 0).value.schema, JStr(s))
      {
        BodySound(false, prog, file, StringMin(n), JStr(s));
      }
    } else {
      var s := SupplementaryFails(prog, file, n);
    }
  }

  lemma {:induction false} SupplementaryFails(prog: Program, file: string, n: real) returns (s: string)
    requires n > 1.0
    ensures Accepts(prog, file, StringMin(n), JStr(s))
    ensures !Valid(Read(prog, file, map[], StringMin(n), 0).value.schema, JStr(s))
  {
    var k: nat := if IsInteger(n) then n.Floor - 1 else n.Floor;
    s := Repeat('\U{10000}', k);
    CodeUnitsRepeat('\U{10000}', k);
    AcceptsWithin(2, prog, file, StringMin(n), JStr(s));
    assert Read(prog, file, map[], StringMin(n), 0).value.schema == OfType(TypeString).(minLength := Some(n));
  }

  function StringMax(n: real): Expr {
    Chain(ZString, Max(Literal(n)))
  }

  /** The other way round, the schema of `z.string().max(n)` admits only strings that zod accepts
      exactly when n is below one: a string of n supplementary characters is valid and refused. */
  lemma {:induction false} StringMaximumExact(prog: Program, file: string, n: real)
    ensures (forall s: string :: Valid(Read(prog, file, map[], StringMax(n), 0).value.schema, JStr(s)) ==>
               Accepts(prog, file, StringMax(n), JStr(s)))
            <==> n < 1.0
  {
    if n < 1.0 {
      forall s: string | Valid(Read(prog, file, map[], StringMax(n), 0).value.schema, JStr(s))
        ensures Accepts(prog, file, StringMax(n), JStr(s))
      {
        assert Read(prog, file, map[], StringMax(n), 0).value.schema == OfType(TypeString).(maxLength := Some(n));
        CodeUnitsBounds(s);
        AcceptsWithin(2, prog, file, StringMax(n), JStr(s));
      }
    } else {
      var s := TooManyUnits(prog, file, n);
    }
  }

  lemma {:induction false} TooManyUnits(prog: Program, file: string, n: real) returns (s: string)
    requires n >= 1.0
    ensures Valid(Read(prog, file, map[], StringMax(n), 0).value.schema, JStr(s))
    ensures !Accepts(prog, file, StringMax(n), JStr(s))
  {
    s := Repeat('\U{10000}', n.Floor);
    CodeUnitsRepeat('\U{10000}', n.Floor);
    assert Read(prog, file, map[], StringMax(n), 0).value.schema == OfType(TypeString).(maxLength := Some(n));
    forall k: nat ensures !AcceptsN(k, prog, file, map[], StringMax(n), Unset, Some(JStr(s))) {
      if k > 0 {
        assert Trimmed(k - 1, prog, file, ZString, s) == s;
      }
    }
  }

  // ----- `int` takes safe integers only, the type `integer` takes all -----

  function IntegerBetween(lo: real, hi: real): Expr {
    Chain(Chain(Chain(ZNumber, Min(Literal(lo))), Max(Literal(hi))), Int)
  }

  const FIRST_UNSAFE := 9007199254740992.0

  // Is there an integer outside the safe range between the bounds?
  predicate ReachesUnsafe(lo: real, hi: real) {
    || (hi.Floor as real >= FIRST_UNSAFE && hi.Floor as real >= lo)
    || ((-lo).Floor as real >= FIRST_UNSAFE && -((-lo).Floor as real) <= hi)
  }

  /** `z.number().min(lo).max(hi).int()` is documented exactly when no integer between the bounds is
      unsafe. */
  lemma {:induction false} IntegerExact(prog: Program, file: string, lo: real, hi: real)
    ensures (forall r: real :: Valid(Read(prog, file, map[], IntegerBetween(lo, hi), 0).value.schema, JNum(r)) ==>
               Accepts(prog, file, IntegerBetween(lo, hi), JNum(r)))
            <==> !ReachesUnsafe(lo, hi)
  {
    forall r: real
      ensures Valid(Read(prog, file, map[], IntegerBetween(lo, hi), 0).value.schema, JNum(r)) <==>
                IsInteger(r) && lo <= r <= hi
      ensures Accepts(prog, file, IntegerBetween(lo, hi), JNum(r)) <==> IsInteger(r) && lo <= r <= hi && Safe(r)
    {
      IntegerRead(prog, file, lo, hi, r);
      IntegerAccepted(prog, file, lo, hi, r);
    }
    if ReachesUnsafe(lo, hi) {
      var k := if hi.Floor as real >= FIRST_UNSAFE && hi.Floor as real >= lo then hi.Floor else -(-lo).Floor;
      assert IsInteger(k as real) && lo <= k as real <= hi && !Safe(k as real);
    } else {
      forall r: real | IsInteger(r) && lo <= r <= hi ensures Safe(r) {
        SafeBetween(lo, hi, r);
      }
    }
  }

  lemma SafeBetween(lo: real, hi: real, r: real)
    requires IsInteger(r) && lo <= r <= hi && !ReachesUnsafe(lo, hi)
    ensures Safe(r)
  {
    assert r.Floor <= hi.Floor;
    assert (-r).Floor == -r.Floor <= (-lo).Floor;
    assert r.Floor < 9007199254740992 && -r.Floor < 9007199254740992;
  }

  lemma IntegerRead(prog: Program, file: string, lo: real, hi: real, r: real)
    ensures Valid(Read(prog, file, map[], IntegerBetween(lo, hi), 0).value.schema, JNum(r)) <==>
              IsInteger(r) && lo <= r <= hi
  {
    var s := OfType(TypeNumber).(minimum := Some(lo));
    assert Read(prog, file, map[], Chain(ZNumber, Min(Literal(lo))), 2) == Some(ZodRead(s, false));
    assert Read(prog, file, map[], Chain(Chain(ZNumber, Min(Literal(lo))), Max(Literal(hi))), 1)
        == Some(ZodRead(s.(maximum := Some(hi)), false));
    assert Read(prog, file, map[], IntegerBetween(lo, hi), 0)
        == Some(ZodRead(s.(maximum := Some(hi), typ := Some(TypeInteger)), false));
  }

  lemma IntegerAccepted(prog: Program, file: string, lo: real, hi: real, r: real)
    ensures Accepts(prog, file, IntegerBetween(lo, hi), JNum(r)) <==> IsInteger(r) && lo <= r <= hi && Safe(r)
  {
    forall n: nat
      ensures AcceptsN(n, prog, file, map[], IntegerBetween(lo, hi), Unset, Some(JNum(r)))
              <==> n > 3 && IsInteger(r) && lo <= r <= hi && Safe(r)
    {
      IntegerAcceptedWithin(n, prog, file, lo, hi, r);
    }
    if IsInteger(r) && lo <= r <= hi && Safe(r) {
      AcceptsWithin(4, prog, file, IntegerBetween(lo, hi), JNum(r));
    }
  }

  lemma IntegerAcceptedWithin(n: nat, prog: Program, file: string, lo: real, hi: real, r: real)
    ensures AcceptsN(n, prog, file, map[], IntegerBetween(lo, hi), Unset, Some(JNum(r)))
            <==> n > 3 && IsInteger(r) && lo <= r <= hi && Safe(r)
  {
    if n > 0 {
      BetweenAcceptedWithin(n - 1, prog, file, lo, hi, r);
    }
  }

  lemma BetweenAcceptedWithin(n: nat, prog: Program, file: string, lo: real, hi: real, r: real)
    ensures AcceptsN(n, prog, file, map[], Chain(Chain(ZNumber, Min(Literal(lo))), Max(Literal(hi))), Unset,
                     Some(JNum(r)))
            <==> n > 2 && lo <= r <= hi
  {
    var low, v := Chain(ZNumber, Min(Literal(lo))), Some(JNum(r));
    if n > 0 {
      if n > 1 {
        assert AcceptsN(n - 2, prog, file, map[], ZNumber, Unset, v) <==> n > 2;
      }
      assert AcceptsN(n - 1, prog, file, map[], low, Unset, v) <==> n > 2 && lo <= r;
      assert AcceptsN(n, prog, file, map[], Chain(low, Max(Literal(hi))), Unset, v)
         <==> AcceptsChain(n, prog, file, map[], low, Max(Literal(hi)), Unset, v);
    }
  }

  /** Without bounds it never is: the schema of `z.number().int()` admits the first unsafe integer. */
  lemma {:induction false} UnboundedIntegerFails(prog: Program, file: string)
    ensures Valid(Read(prog, file, map[], Chain(ZNumber, Int), 0).value.schema, JNum(FIRST_UNSAFE))
    ensures !Accepts(prog, file, Chain(ZNumber, Int), JNum(FIRST_UNSAFE))
  {
    assert IsInteger(FIRST_UNSAFE) && !Safe(FIRST_UNSAFE);
    assert Read(prog, file, map[], Chain(ZNumber, Int), 0) == Some(ZodRead(OfType(TypeInteger), false));
    forall n: nat ensures !AcceptsN(n, prog, file, map[], Chain(ZNumber, Int), Unset, Some(JNum(FIRST_UNSAFE))) {
    }
  }

  // ----- maxima before and after trimming -----

  predicate TrimsAndMaxima(mods: seq<Modifier>) {
    forall i :: 0 <= i < |mods| ==> mods[i].Trim? || (mods[i].Max? && mods[i].bound.Literal?)
  }

  predicate TrimsIn(mods: seq<Modifier>) {
    exists i :: 0 <= i < |mods| && mods[i].Trim?
  }

  function LastMaximum(mods: seq<Modifier>): Option<real>
    requires TrimsAndMaxima(mods)
  {
    if mods == [] then None
    else if mods[|mods| - 1].Max? then Some(mods[|mods| - 1].bound.amount)
    else LastMaximum(mods[..|mods| - 1])
  }

  // A length passes every maximum that is checked before the first trim, and nothing fails them all.
  predicate Passes(mods: seq<Modifier>, length: nat)
    requires TrimsAndMaxima(mods)
  {
    forall i :: 0 <= i < |mods| && mods[i].Max? ==>
      0.0 <= mods[i].bound.amount && (!TrimsIn(mods[..i]) ==> length as real <= mods[i].bound.amount)
  }

  // The last maximum is implied by one that is checked before the first trim, or nothing is accepted.
  predicate LastIsImplied(mods: seq<Modifier>)
    requires TrimsAndMaxima(mods)
  {
    LastMaximum(mods).Some? ==>
      exists i :: 0 <= i < |mods| && mods[i].Max?
        && (|| mods[i].bound.amount < 0.0
            || (!TrimsIn(mods[..i]) && mods[i].bound.amount.Floor <= LastMaximum(mods).value.Floor))
  }

  /** `z.string()` under any sequence of `trim` and `max` is documented truthfully exactly when there
      is no maximum, when the last one is implied by one that is checked before the first trim, or
      when a negative one shuts out every string: the documented maximum is the last, and blanks
      that zod trims away count under it. */
  lemma {:induction false} TrimmedMaximumExact(prog: Program, file: string, mods: seq<Modifier>)
    requires TrimsAndMaxima(mods) && |mods| <= MAX_ZOD_DEPTH
    ensures Read(prog, file, map[], Chained(ZString, mods), 0).Some?
    ensures Truthful(prog, file, Chained(ZString, mods)) <==> LastIsImplied(mods)
  {
    ChainedRead(prog, file, mods, 0);
    if LastIsImplied(mods) {
      forall v: Json | Accepts(prog, file, Chained(ZString, mods), v)
        ensures Valid(Read(prog, file, map[], Chained(ZString, mods), 0).value.schema, v)
      {
        ImpliedMaximumHolds(prog, file, mods, v);
      }
    } else {
      var s := TrimmedMaximumFails(prog, file, mods);
    }
  }

  lemma {:induction false} ImpliedMaximumHolds(prog: Program, file: string, mods: seq<Modifier>, v: Json)
    requires TrimsAndMaxima(mods) && LastIsImplied(mods)
    requires Accepts(prog, file, Chained(ZString, mods), v)
    ensures v.JStr? && AtMost(LastMaximum(mods), |v.text| as real)
  {
    var n: nat :| AcceptsN(n, prog, file, map[], Chained(ZString, mods), Unset, Some(v));
    AcceptedPasses(n, prog, file, mods, v);
    CodeUnitsBounds(v.text);
  }

  lemma {:induction false} TrimmedMaximumFails(prog: Program, file: string, mods: seq<Modifier>) returns (s: string)
    requires TrimsAndMaxima(mods) && |mods| <= MAX_ZOD_DEPTH && !LastIsImplied(mods)
    ensures var e := Chained(ZString, mods);
            && Accepts(prog, file, e, JStr(s))
            && Read(prog, file, map[], e, 0).Some?
            && !Valid(Read(prog, file, map[], e, 0).value.schema, JStr(s))
  {
    var last := LastMaximum(mods).value;
    LastIsAmong(mods);
    var k := last.Floor + 1;
    s := Repeat(' ', k);
    forall i | 0 <= i < |mods| && mods[i].Max? && !TrimsIn(mods[..i]) ensures k as real <= mods[i].bound.amount {
      assert mods[i].bound.amount.Floor >= k;
    }
    BlanksAccepted(prog, file, mods, k);
    AcceptsWithin(|mods| + 1, prog, file, Chained(ZString, mods), JStr(s));
    ChainedRead(prog, file, mods, 0);
  }

  lemma {:induction false} LastIsAmong(mods: seq<Modifier>)
    requires TrimsAndMaxima(mods) && LastMaximum(mods).Some?
    ensures exists i :: 0 <= i < |mods| && mods[i].Max? && mods[i].bound.amount == LastMaximum(mods).value
  {
    if !mods[|mods| - 1].Max? {
      LastIsAmong(mods[..|mods| - 1]);
    }
  }

  lemma {:induction false} ChainedRead(prog: Program, file: string, mods: seq<Modifier>, depth: nat)
    requires TrimsAndMaxima(mods) && depth + |mods| <= MAX_ZOD_DEPTH
    ensures Read(prog, file, map[], Chained(ZString, mods), depth)
         == Plainly(OfType(TypeString).(maxLength := LastMaximum(mods)))
  {
    if mods != [] {
      ChainedRead(prog, file, mods[..|mods| - 1], depth + 1);
    }
  }

  lemma PassesFront(mods: seq<Modifier>, length: nat)
    requires TrimsAndMaxima(mods) && mods != []
    ensures var front, last := mods[..|mods| - 1], mods[|mods| - 1];
            && TrimsAndMaxima(front)
            && (TrimsIn(mods) <==> TrimsIn(front) || last.Trim?)
            && (Passes(mods, length) <==>
                  && Passes(front, length)
                  && (last.Max? ==>
                        0.0 <= last.bound.amount && (!TrimsIn(front) ==> length as real <= last.bound.amount)))
  {
    var front := mods[..|mods| - 1];
    assert forall i :: 0 <= i < |front| ==> mods[..i] == front[..i];
  }

  lemma {:induction false} UntrimmedChain(n: nat, prog: Program, file: string, mods: seq<Modifier>, s: string)
    requires TrimsAndMaxima(mods) && !TrimsIn(mods)
    ensures Trimmed(n, prog, file, Chained(ZString, mods), s) == s
  {
    if n > 0 && mods != [] {
      PassesFront(mods, 0);
      UntrimmedChain(n - 1, prog, file, mods[..|mods| - 1], s);
    }
  }

  // An accepted value is a string, and its code units pass.
  lemma {:induction false} AcceptedPasses(n: nat, prog: Program, file: string, mods: seq<Modifier>, v: Json)
    requires TrimsAndMaxima(mods) && AcceptsN(n, prog, file, map[], Chained(ZString, mods), Unset, Some(v))
    ensures v.JStr? && Passes(mods, CodeUnits(v.text))
    decreases |mods|
  {
    if mods != [] {
      var front, last := mods[..|mods| - 1], mods[|mods| - 1];
      assert AcceptsChain(n, prog, file, map[], Chained(ZString, front), last, Unset, Some(v));
      AcceptedPasses(n - 1, prog, file, front, v);
      PassesFront(mods, CodeUnits(v.text));
      if !TrimsIn(front) {
        UntrimmedChain(n - 1, prog, file, front, v.text);
      }
    }
  }

  // Once trimmed, nothing is left of blanks.
  lemma {:induction false} BlanksTrimmed(n: nat, prog: Program, file: string, mods: seq<Modifier>, k: nat)
    requires TrimsAndMaxima(mods) && n >= |mods|
    ensures Trimmed(n, prog, file, Chained(ZString, mods), Repeat(' ', k))
         == if TrimsIn(mods) then [] else Repeat(' ', k)
    decreases |mods|
  {
    if mods != [] {
      PassesFront(mods, k);
      BlanksTrimmed(n - 1, prog, file, mods[..|mods| - 1], k);
      TrimShortens(Repeat(' ', k));
      assert Text.Trim([]) == [];
    }
  }

  // So blanks whose number passes are accepted.
  lemma {:induction false} BlanksAccepted(prog: Program, file: string, mods: seq<Modifier>, k: nat)
    requires TrimsAndMaxima(mods) && Passes(mods, k)
    ensures AcceptsN(|mods| + 1, prog, file, map[], Chained(ZString, mods), Unset, Some(JStr(Repeat(' ', k))))
    decreases |mods|
  {
    if mods != [] {
      var front, last, s := mods[..|mods| - 1], mods[|mods| - 1], Repeat(' ', k);
      PassesFront(mods, k);
      BlanksAccepted(prog, file, front, k);
      BlanksTrimmed(|mods|, prog, file, front, k);
      CodeUnitsRepeat(' ', k);
      assert CodeUnits(s) == k;
      assert AcceptsChain(|mods| + 1, prog, file, map[], Chained(ZString, front), last, Unset, Some(JStr(s)));
    }
  }

  // ----- nullish -----

  /** `x.nullish()` is documented truthfully exactly when the schema of x already accepts null. */
  lemma {:induction false} NullishExact(prog: Program, file: string, x: Expr)
    requires Read(prog, file, map[], x, 1).Some? && Faithful(false, prog, file, map[], map[], x, Unset, 1)
    ensures var s := Read(prog, file, map[], x, 1).value.schema;
            Truthful(prog, file, Chain(x, Nullish)) <==> Valid(s, JNull)
  {
    var e := Chain(x, Nullish);
    var s := Read(prog, file, map[], x, 1).value.schema;
    assert Read(prog, file, map[], e, 0).value.schema == s;
    AcceptsWithin(1, prog, file, e, JNull);
    if Valid(s, JNull) {
      assert Faithful(false, prog, file, map[], map[], e, Unset, 0);
      forall v: Json | Accepts(prog, file, e, v) ensures Valid(Read(prog, file, map[], e, 0).value.schema, v) {
        BodySound(false, prog, file, e, v);
      }
    }
  }

  // ----- catch -----

  /** `x.catch(...)` accepts every value, so it is documented truthfully exactly when the schema of x
      admits every value. */
  lemma {:induction false} CatchExact(prog: Program, file: string, x: Expr)
    requires Read(prog, file, map[], x, 1).Some?
    ensures Truthful(prog, file, Chain(x, Catch)) <==> AdmitsAll(Read(prog, file, map[], x, 1).value.schema)
  {
    var s := Read(prog, file, map[], x, 1).value.schema;
    assert Read(prog, file, map[], Chain(x, Catch), 0).value.schema == s;
    forall v: Json ensures Accepts(prog, file, Chain(x, Catch), v) {
      AcceptsWithin(1, prog, file, Chain(x, Catch), v);
    }
    if !AdmitsAll(s) {
      var v: Json :| !Valid(s, v);
      assert Accepts(prog, file, Chain(x, Catch), v);
    }
  }

  // Which no schema with a type does ...
  lemma {:induction false} CatchOverTypeFails(prog: Program, file: string, x: Expr) returns (v: Json)
    requires Read(prog, file, map[], x, 1).Some? && Read(prog, file, map[], x, 1).value.schema.typ.Some?
    ensures Accepts(prog, file, Chain(x, Catch), v)
    ensures !Valid(Read(prog, file, map[], Chain(x, Catch), 0).value.schema, v)
  {
    var s := Read(prog, file, map[], x, 1).value.schema;
    v := if s.typ == Some(TypeString) then JBool(true) else JStr("");
    AcceptsWithin(1, prog, file, Chain(x, Catch), v);
    assert Read(prog, file, map[], Chain(x, Catch), 0).value.schema == s;
  }

  // ... and a union of schemas does as soon as one of its members does.
  lemma {:induction false} UnionAdmitsAll(schemas: seq<Schema>, i: nat)
    requires i < |schemas| && AdmitsAll(schemas[i])
    ensures AdmitsAll(ANYTHING.(anyOf := schemas))
  {
    forall v: Json ensures Valid(ANYTHING.(anyOf := schemas), v) {
      assert Valid(schemas[i], v);
    }
  }

  // ----- strict, and then unknown keys again -----

  predicate KeyModifiers(mods: seq<Modifier>) {
    forall i :: 0 <= i < |mods| ==> mods[i].StrictKeys? || mods[i].PassthroughKeys? || mods[i].StripKeys?
  }

  predicate AnyStrict(mods: seq<Modifier>) {
    exists i :: 0 <= i < |mods| && mods[i].StrictKeys?
  }

  lemma AnyStrictFront(mods: seq<Modifier>)
    requires mods != []
    ensures AnyStrict(mods) <==> AnyStrict(mods[..|mods| - 1]) || mods[|mods| - 1].StrictKeys?
  {
    assert forall i :: 0 <= i < |mods| - 1 ==> mods[..|mods| - 1][i] == mods[i];
  }

  // The documented object is closed as soon as any modifier is strict, though the outermost decides.
  predicate Reopened(mods: seq<Modifier>) {
    mods != [] && !mods[|mods| - 1].StrictKeys? && AnyStrict(mods)
  }

  /** A faithful object literal is documented truthfully under any list of modifiers for unknown keys
      exactly when the list ends in `strict`, or has none at all, or the literal accepts nothing. */
  lemma {:induction false} KeyChainExact(prog: Program, file: string, props: seq<Prop>, mods: seq<Modifier>)
    requires KeyModifiers(mods) && Read(prog, file, map[], Chained(ZObject(props), mods), 0).Some?
    requires Faithful(false, prog, file, map[], map[], ZObject(props), Unset, |mods|)
    ensures Truthful(prog, file, Chained(ZObject(props), mods))
            <==> !Reopened(mods) || forall v: Json :: !Accepts(prog, file, ZObject(props), v)
  {
    if !Reopened(mods) {
      KeyChainHolds(prog, file, props, mods);
    } else if v: Json :| Accepts(prog, file, ZObject(props), v) {
      var n: nat :| AcceptsN(n, prog, file, map[], ZObject(props), Unset, Some(v));
      ReopenedObjectFails(n, prog, file, props, mods, v.fields, Undeclared(props), JNull);
    } else {
      forall v: Json ensures !Accepts(prog, file, Chained(ZObject(props), mods), v) {
        NoneThroughChain(prog, file, props, mods, v);
      }
    }
  }

  lemma {:induction false} KeyChainHolds(prog: Program, file: string, props: seq<Prop>, mods: seq<Modifier>)
    requires KeyModifiers(mods) && Read(prog, file, map[], Chained(ZObject(props), mods), 0).Some?
    requires Faithful(false, prog, file, map[], map[], ZObject(props), Unset, |mods|) && !Reopened(mods)
    ensures Truthful(prog, file, Chained(ZObject(props), mods))
  {
    var e := Chained(ZObject(props), mods);
    KeyChainIsFaithful(prog, file, props, mods, Unset, 0);
    forall v: Json | Accepts(prog, file, e, v) ensures Valid(Read(prog, file, map[], e, 0).value.schema, v) {
      BodySound(false, prog, file, e, v);
    }
  }

  lemma {:induction false} NoneThroughChain(prog: Program, file: string, props: seq<Prop>, mods: seq<Modifier>, v: Json)
    requires KeyModifiers(mods) && !Accepts(prog, file, ZObject(props), v)
    ensures !Accepts(prog, file, Chained(ZObject(props), mods), v)
  {
    if n: nat :| AcceptsN(n, prog, file, map[], Chained(ZObject(props), mods), Unset, Some(v)) {
      LiteralAccepts(n, prog, file, props, mods, Unset, v);
    }
  }

  lemma {:induction false} LiteralAccepts(n: nat, prog: Program, file: string, props: seq<Prop>, mods: seq<Modifier>,
                                          keys: KeyPolicy, v: Json)
    requires KeyModifiers(mods) && AcceptsN(n, prog, file, map[], Chained(ZObject(props), mods), keys, Some(v))
    ensures Accepts(prog, file, ZObject(props), v)
    decreases |mods|
  {
    if mods == [] {
      AcceptsWithin(n, prog, file, ZObject(props), v);
    } else {
      var front, last := mods[..|mods| - 1], mods[|mods| - 1];
      assert AcceptsChain(n, prog, file, map[], Chained(ZObject(props), front), last, keys, Some(v));
      LiteralAccepts(n - 1, prog, file, props, front, PolicyBelow(last, keys), v);
    }
  }

  /** After a `strict` that is not the last, zod accepts unknown keys again, but the schema still says
      `additionalProperties: false`: every accepted body with an undeclared key added to it is
      accepted, and is invalid. */
  lemma {:induction false} ReopenedObjectFails(n: nat, prog: Program, file: string, props: seq<Prop>,
                                               mods: seq<Modifier>, f: map<string, Json>, k: string, w: Json)
    requires KeyModifiers(mods) && Reopened(mods)
    requires Read(prog, file, map[], Chained(ZObject(props), mods), 0).Some? && k !in PropNames(props)
    requires AcceptsN(n, prog, file, map[], ZObject(props), Unset, Some(JObj(f)))
    ensures var e := Chained(ZObject(props), mods);
            && Accepts(prog, file, e, JObj(f[k := w]))
            && !Valid(Read(prog, file, map[], e, 0).value.schema, JObj(f[k := w]))
  {
    KeyChainRead(prog, file, props, mods, 0);
    ExtraKeyAccepted(n, prog, file, props, |mods|, f, k, w);
    ReopenedAccepts(n, prog, file, props, mods, JObj(f[k := w]));
    ClosedRejects(Read(prog, file, map[], Chained(ZObject(props), mods), 0).value.schema, f[k := w], k);
  }

  lemma {:induction false} ReopenedAccepts(n: nat, prog: Program, file: string, props: seq<Prop>, mods: seq<Modifier>,
                                           v: Json)
    requires KeyModifiers(mods) && Reopened(mods)
    requires AcceptsN(n, prog, file, map[], ZObject(props), Loose, Some(v))
    ensures Accepts(prog, file, Chained(ZObject(props), mods), v)
  {
    var front, last := mods[..|mods| - 1], mods[|mods| - 1];
    LooseChainAccepts(n, prog, file, props, front, Some(v));
    assert AcceptsChain(n + |mods|, prog, file, map[], Chained(ZObject(props), front), last, Unset, Some(v));
    AcceptsWithin(n + |mods|, prog, file, Chained(ZObject(props), mods), v);
  }

  lemma {:induction false} KeyChainRead(prog: Program, file: string, props: seq<Prop>, mods: seq<Modifier>, depth: nat)
    requires KeyModifiers(mods) && Read(prog, file, map[], Chained(ZObject(props), mods), depth).Some?
    ensures depth + |mods| <= MAX_ZOD_DEPTH && ReadProps(prog, file, map[], props, depth + |mods|).Some?
    ensures var s := Read(prog, file, map[], Chained(ZObject(props), mods), depth).value.schema;
            s.properties.Keys == PropNames(props) && s.additional == Some(!AnyStrict(mods))
    decreases |mods|
  {
    if mods == [] {
      PropNamesRead(prog, file, map[], props, depth);
    } else {
      var front, last := mods[..|mods| - 1], mods[|mods| - 1];
      KeyChainRead(prog, file, props, front, depth + 1);
      KeyModifierRead(last, Read(prog, file, map[], Chained(ZObject(props), front), depth + 1).value);
      AnyStrictFront(mods);
    }
  }

  lemma KeyModifierRead(modifier: Modifier, inner: ZodRead)
    requires modifier.StrictKeys? || modifier.PassthroughKeys? || modifier.StripKeys?
    ensures Modify(modifier, inner).Some?
    ensures var s := Modify(modifier, inner).value.schema;
            && s.properties == inner.schema.properties
            && s.additional == if modifier.StrictKeys? then Some(false) else inner.schema.additional
  {
  }

  lemma {:induction false} LooseChainAccepts(n: nat, prog: Program, file: string, props: seq<Prop>,
                                             mods: seq<Modifier>, v: Option<Json>)
    requires KeyModifiers(mods) && AcceptsN(n, prog, file, map[], ZObject(props), Loose, v)
    ensures AcceptsN(n + |mods|, prog, file, map[], Chained(ZObject(props), mods), Loose, v)
    decreases |mods|
  {
    if mods != [] {
      var front, last := mods[..|mods| - 1], mods[|mods| - 1];
      LooseChainAccepts(n, prog, file, props, front, v);
      assert AcceptsChain(n + |mods|, prog, file, map[], Chained(ZObject(props), front), last, Loose, v);
    }
  }

  // Reopening matters only where it is outermost: below another such modifier the outer one decides.
  lemma {:induction false} KeyChainIsFaithful(prog: Program, file: string, props: seq<Prop>, mods: seq<Modifier>,
                                              keys: KeyPolicy, depth: nat)
    requires KeyModifiers(mods) && Read(prog, file, map[], Chained(ZObject(props), mods), depth).Some?
    requires Faithful(false, prog, file, map[], map[], ZObject(props), Unset, depth + |mods|)
    requires keys.Unset? ==> !Reopened(mods)
    ensures Faithful(false, prog, file, map[], map[], Chained(ZObject(props), mods), keys, depth)
    decreases |mods|
  {
    if mods != [] {
      var front, last := mods[..|mods| - 1], mods[|mods| - 1];
      var receiver := Chained(ZObject(props), front);
      KeyChainRead(prog, file, props, front, depth + 1);
      KeyChainIsFaithful(prog, file, props, front, PolicyBelow(last, keys), depth + 1);
      KeyModifierFaithful(mods, Read(prog, file, map[], receiver, depth + 1).value.schema,
                          Trims(prog, file, receiver, depth + 1), keys);
      ChainFaithful(prog, file, receiver, last, keys, depth);
    }
  }

  lemma KeyModifierFaithful(mods: seq<Modifier>, s: Schema, trims: bool, keys: KeyPolicy)
    requires KeyModifiers(mods) && mods != [] && s.additional == Some(!AnyStrict(mods[..|mods| - 1]))
    requires keys.Unset? ==> !Reopened(mods)
    ensures FaithfulModifier(false, mods[|mods| - 1], s, trims, keys)
  {
    AnyStrictFront(mods);
  }

  lemma ChainFaithful(prog: Program, file: string, receiver: Expr, modifier: Modifier, keys: KeyPolicy, depth: nat)
    requires Read(prog, file, map[], receiver, depth + 1).Some?
    requires Faithful(false, prog, file, map[], map[], receiver, PolicyBelow(modifier, keys), depth + 1)
    requires FaithfulModifier(false, modifier, Read(prog, file, map[], receiver, depth + 1).value.schema,
                              Trims(prog, file, receiver, depth + 1), keys)
    ensures Faithful(false, prog, file, map[], map[], Chain(receiver, modifier), keys, depth)
  {
  }

  // A key longer than all declared ones.
  function Undeclared(props: seq<Prop>): (k: string)
    ensures k !in PropNames(props)
    ensures forall i :: 0 <= i < |props| && !props[i].OtherProp? ==> |props[i].name| < |k|
  {
    if props == [] then "x"
    else
      var k := Undeclared(props[1..]);
      assert forall i :: 0 < i < |props| ==> props[i] == props[1..][i - 1];
      if props[0].OtherProp? || |props[0].name| < |k| then k else props[0].name + "x"
  }

  lemma ClosedRejects(s: Schema, g: map<string, Json>, k: string)
    requires s.additional == Some(false) && k in g && k !in s.properties
    ensures !Valid(s, JObj(g))
  {
    assert k in g.Keys;
  }

  // A field the literal does not name changes nothing for the properties it does name.
  lemma {:induction false} ExtraKeyAccepted(n: nat, prog: Program, file: string, props: seq<Prop>,
                                            depth: nat, f: map<string, Json>, k: string, w: Json)
    requires depth <= MAX_ZOD_DEPTH && ReadProps(prog, file, map[], props, depth).Some? && k !in PropNames(props)
    requires AcceptsN(n, prog, file, map[], ZObject(props), Unset, Some(JObj(f)))
    ensures AcceptsN(n, prog, file, map[], ZObject(props), Loose, Some(JObj(f[k := w])))
  {
    var g := f[k := w];
    forall i | 0 <= i < |props| ensures AcceptsProp(n - 1, prog, file, map[], props[i], g) {
      assert AcceptsProp(n - 1, prog, file, map[], props[i], f);
      ReadableProps(prog, file, props, depth, i);
      assert props[i].name in PropNames(props);
      assert FieldOf(g, props[i].name) == FieldOf(f, props[i].name);
    }
  }

  lemma {:induction false} ReadableProps(prog: Program, file: string, props: seq<Prop>, depth: nat, i: nat)
    requires depth <= MAX_ZOD_DEPTH && ReadProps(prog, file, map[], props, depth).Some? && i < |props|
    ensures !props[i].OtherProp? && ReadProp(prog, file, map[], props[i], depth).Some?
    decreases props
  {
    if i > 0 {
      ReadableProps(prog, file, props[1..], depth, i - 1);
    }
  }

  // What zod does with unknown keys: the outermost modifier decides.
  function KeyBehaviour(mods: seq<Modifier>): UnknownKeys {
    if mods == [] then Stripped
    else
      match mods[|mods| - 1]
      case StrictKeys => Rejected
      case PassthroughKeys => Passthrough
      case _ => Stripped
  }

  predicate AllStrip(mods: seq<Modifier>) {
    forall i :: 0 <= i < |mods| ==> mods[i].StripKeys?
  }

  /** The documented treatment of unknown keys is zod's exactly when no `strip` comes last over an
      earlier `strict` or `passthrough`: `strip` leaves the annotation it undoes. */
  lemma {:induction false} AnnotationExact(prog: Program, file: string, params: TypeParams, props: seq<Prop>,
                                           mods: seq<Modifier>, depth: nat)
    requires KeyModifiers(mods) && Read(prog, file, params, Chained(ZObject(props), mods), depth).Some?
    ensures var documented := Read(prog, file, params, Chained(ZObject(props), mods), depth).value.schema.unknownKeys;
            && (documented == Some(Stripped) <==> AllStrip(mods))
            && (documented == Some(KeyBehaviour(mods)) <==>
                  mods == [] || !mods[|mods| - 1].StripKeys? || AllStrip(mods))
  {
    if mods != [] {
      var front, last := mods[..|mods| - 1], mods[|mods| - 1];
      AnnotationExact(prog, file, params, props, front, depth + 1);
      assert AllStrip(mods) <==> AllStrip(front) && last.StripKeys? by {
        assert mods == front + [last];
      }
    }
  }

  // ----- unions -----

  /** A union of faithful options that all read as string enums is documented truthfully, as one merged
      enum, exactly when none of them accepts null. */
  lemma {:induction false} MergedEnumExact(prog: Program, file: string, options: seq<Expr>)
    requires Read(prog, file, map[], ZUnion(options), 0).Some?
    requires AllEnums(ReadAll(prog, file, map[], options, 0).value)
    requires forall i :: 0 <= i < |options| ==> Faithful(false, prog, file, map[], map[], options[i], Unset, 1)
    ensures Truthful(prog, file, ZUnion(options))
            <==> forall i :: 0 <= i < |options| ==> !Accepts(prog, file, options[i], JNull)
  {
    if i :| 0 <= i < |options| && Accepts(prog, file, options[i], JNull) {
      var n: nat :| AcceptsN(n, prog, file, map[], options[i], Unset, Some(JNull));
      MergedEnumLosesNull(n, prog, file, options, i);
    } else {
      forall v: Json | Accepts(prog, file, ZUnion(options), v)
        ensures Valid(Read(prog, file, map[], ZUnion(options), 0).value.schema, v)
      {
        MergedEnumHolds(prog, file, options, v);
      }
    }
  }

  lemma {:induction false} MergedEnumHolds(prog: Program, file: string, options: seq<Expr>, v: Json)
    requires Read(prog, file, map[], ZUnion(options), 0).Some?
    requires AllEnums(ReadAll(prog, file, map[], options, 0).value)
    requires forall i :: 0 <= i < |options| ==> Faithful(false, prog, file, map[], map[], options[i], Unset, 1)
    requires forall i :: 0 <= i < |options| ==> !Accepts(prog, file, options[i], JNull)
    requires Accepts(prog, file, ZUnion(options), v)
    ensures Valid(Read(prog, file, map[], ZUnion(options), 0).value.schema, v)
  {
    var i := AcceptingOption(prog, file, options, v);
    assert !v.JNull?;
    OptionHolds(prog, file, options[i], v);
    MergedUnionHolds(prog, file, options, i, v);
  }

  lemma {:induction false} MergedUnionHolds(prog: Program, file: string, options: seq<Expr>, i: nat, v: Json)
    requires Read(prog, file, map[], ZUnion(options), 0).Some? && i < |options| && !v.JNull?
    requires AllEnums(ReadAll(prog, file, map[], options, 0).value)
    requires var r := Read(prog, file, map[], options[i], 1); r.Some? ==> Valid(r.value.schema, v)
    ensures Valid(Read(prog, file, map[], ZUnion(options), 0).value.schema, v)
  {
    ReadAllGives(prog, file, map[], options, 0, i);
    MergedEnumHas(ReadAll(prog, file, map[], options, 0).value, i, v);
  }

  lemma {:induction false} AcceptingOption(prog: Program, file: string, options: seq<Expr>, v: Json)
    returns (i: nat)
    requires Accepts(prog, file, ZUnion(options), v)
    ensures i < |options| && Accepts(prog, file, options[i], v)
  {
    var n: nat :| AcceptsN(n, prog, file, map[], ZUnion(options), Unset, Some(v));
    assert AcceptsFactory(n, prog, file, map[], ZUnion(options), Some(v));
    i :| 0 <= i < |options| && AcceptsN(n - 1, prog, file, map[], options[i], Unset, Some(v));
    AcceptsWithin(n - 1, prog, file, options[i], v);
  }

  lemma {:induction false} OptionHolds(prog: Program, file: string, option: Expr, v: Json)
    requires Faithful(false, prog, file, map[], map[], option, Unset, 1) && Accepts(prog, file, option, v)
    ensures var r := Read(prog, file, map[], option, 1); r.Some? ==> Valid(r.value.schema, v)
  {
    if Read(prog, file, map[], option, 1).Some? {
      var n: nat :| AcceptsN(n, prog, file, map[], option, Unset, Some(v));
      ReadSound(false, n, prog, file, map[], map[], option, Unset, 1, v);
    }
  }

  lemma {:induction false} MergedEnumHas(schemas: seq<Schema>, i: nat, v: Json)
    requires AllEnums(schemas) && i < |schemas| && Valid(schemas[i], v) && !v.JNull?
    ensures Valid(EnumOf(Dedup(AllValues(schemas))), v)
  {
    AllValuesHas(schemas, i, v.text);
  }

  // The merged enum loses the null that any of them accepted.
  lemma {:induction false} MergedEnumLosesNull(n: nat, prog: Program, file: string, options: seq<Expr>, i: nat)
    requires i < |options| && ReadAll(prog, file, map[], options, 0).Some?
    requires AllEnums(ReadAll(prog, file, map[], options, 0).value)
    requires AcceptsN(n, prog, file, map[], options[i], Unset, Some(JNull))
    ensures Accepts(prog, file, ZUnion(options), JNull)
    ensures !Valid(Read(prog, file, map[], ZUnion(options), 0).value.schema, JNull)
  {
    AcceptsWithin(n + 1, prog, file, ZUnion(options), JNull);
    ReadAllGives(prog, file, map[], options, 0, 0);
  }

  // ----- fields that may be absent -----

  // The field is documented as required.
  predicate IsRequired(prog: Program, file: string, prop: Prop) {
    var r := ReadProp(prog, file, map[], prop, 0);
    r.Some? && !r.value.optional
  }

  ghost predicate FieldsFaithful(prog: Program, file: string, props: seq<Prop>) {
    forall i :: 0 <= i < |props| ==> FaithfulProp(false, prog, file, map[], map[], props[i], 0)
  }

  /** A body that an object literal of faithful fields accepts is valid exactly when it has every field
      that is not read as optional. */
  lemma {:induction false} OmissionExact(prog: Program, file: string, props: seq<Prop>, f: map<string, Json>)
    requires Read(prog, file, map[], ZObject(props), 0).Some? && FieldsFaithful(prog, file, props)
    requires Accepts(prog, file, ZObject(props), JObj(f))
    ensures Valid(Read(prog, file, map[], ZObject(props), 0).value.schema, JObj(f))
            <==> forall i :: 0 <= i < |props| && IsRequired(prog, file, props[i]) ==> props[i].name in f
  {
    var n: nat :| AcceptsN(n, prog, file, map[], ZObject(props), Unset, Some(JObj(f)));
    if i :| 0 <= i < |props| && IsRequired(prog, file, props[i]) && props[i].name !in f {
      UntrackedAbsenceFails(prog, file, props, i, f);
    } else {
      forall i | 0 <= i < |props| ensures PropHolds(prog, file, map[], props[i], 0, f) {
        if ReadProp(prog, file, map[], props[i], 0).Some? {
          PropSound(false, n, prog, file, map[], map[], props[i], 0, JObj(f));
        }
      }
      PropsMakeObject(prog, file, map[], props, 0, f);
    }
  }

  // Within n unfoldings the literal accepts a body, and its i-th field, documented as required, absence.
  ghost predicate MayOmit(n: nat, prog: Program, file: string, props: seq<Prop>, i: nat, f: map<string, Json>) {
    && AcceptsN(n, prog, file, map[], ZObject(props), Unset, Some(JObj(f)))
    && i < |props| && IsRequired(prog, file, props[i])
    && AcceptsProp(n - 1, prog, file, map[], props[i], map[])
  }

  /** So an object literal of faithful fields is documented truthfully exactly when, as far as it accepts
      any body, no field documented as required accepts absence. */
  lemma {:induction false} ObjectOmissionExact(prog: Program, file: string, props: seq<Prop>)
    requires Read(prog, file, map[], ZObject(props), 0).Some? && FieldsFaithful(prog, file, props)
    requires DistinctNames(props)
    ensures Truthful(prog, file, ZObject(props)) <==> !exists n, i, f :: MayOmit(n, prog, file, props, i, f)
  {
    if n, i, f :| MayOmit(n, prog, file, props, i, f) {
      OmittedIsInvalid(n, prog, file, props, i, f);
    }
    if !Truthful(prog, file, ZObject(props)) {
      var v: Json :| Accepts(prog, file, ZObject(props), v)
        && !Valid(Read(prog, file, map[], ZObject(props), 0).value.schema, v);
      var n, i := InvalidOmits(prog, file, props, v);
    }
  }

  lemma {:induction false} OmittedIsInvalid(n: nat, prog: Program, file: string, props: seq<Prop>, i: nat,
                                            f: map<string, Json>)
    requires Read(prog, file, map[], ZObject(props), 0).Some? && DistinctNames(props)
    requires MayOmit(n, prog, file, props, i, f)
    ensures var g := f - {props[i].name};
            && Accepts(prog, file, ZObject(props), JObj(g))
            && !Valid(Read(prog, file, map[], ZObject(props), 0).value.schema, JObj(g))
  {
    var g := f - {props[i].name};
    forall j | 0 <= j < |props| ensures AcceptsProp(n - 1, prog, file, map[], props[j], g) {
      ReadableProps(prog, file, props, 0, j);
      assert AcceptsProp(n - 1, prog, file, map[], props[j], f);
      if j != i {
        assert props[j].name != props[i].name;
        assert FieldOf(g, props[j].name) == FieldOf(f, props[j].name);
      } else {
        assert FieldOf(g, props[i].name) == FieldOf(map[], props[i].name);
      }
    }
    AcceptsWithin(n, prog, file, ZObject(props), JObj(g));
    UntrackedAbsenceFails(prog, file, props, i, g);
  }

  lemma {:induction false} InvalidOmits(prog: Program, file: string, props: seq<Prop>, v: Json) returns (n: nat, i: nat)
    requires Read(prog, file, map[], ZObject(props), 0).Some? && FieldsFaithful(prog, file, props)
    requires Accepts(prog, file, ZObject(props), v)
    requires !Valid(Read(prog, file, map[], ZObject(props), 0).value.schema, v)
    ensures v.JObj? && MayOmit(n, prog, file, props, i, v.fields)
  {
    n :| AcceptsN(n, prog, file, map[], ZObject(props), Unset, Some(v));
    OmissionExact(prog, file, props, v.fields);
    i :| 0 <= i < |props| && IsRequired(prog, file, props[i]) && props[i].name !in v.fields;
    assert AcceptsProp(n - 1, prog, file, map[], props[i], v.fields);
    assert FieldOf(v.fields, props[i].name) == FieldOf(map[], props[i].name);
  }

  /** A field that is not read as optional is documented as required: every accepted body without it,
      whatever else the object declares, is invalid. */
  lemma {:induction false} UntrackedAbsenceFails(prog: Program, file: string, props: seq<Prop>, i: nat,
                                                 f: map<string, Json>)
    requires ReadProps(prog, file, map[], props, 0).Some? && i < |props|
    requires ReadProp(prog, file, map[], props[i], 0).Some? && !ReadProp(prog, file, map[], props[i], 0).value.optional
    requires Accepts(prog, file, ZObject(props), JObj(f)) && props[i].name !in f
    ensures Read(prog, file, map[], ZObject(props), 0).Some?
    ensures !Valid(Read(prog, file, map[], ZObject(props), 0).value.schema, JObj(f))
  {
    var required := ReadProps(prog, file, map[], props, 0).value.1;
    var j := RequiredHas(prog, file, props, 0, i);
    assert Read(prog, file, map[], ZObject(props), 0).value.schema.required[j] !in JObj(f).fields;
  }

  lemma {:induction false} RequiredHas(prog: Program, file: string, props: seq<Prop>, depth: nat, i: nat)
    returns (j: nat)
    requires depth <= MAX_ZOD_DEPTH && ReadProps(prog, file, map[], props, depth).Some? && i < |props|
    requires ReadProp(prog, file, map[], props[i], depth).Some?
        && !ReadProp(prog, file, map[], props[i], depth).value.optional
    ensures var required := ReadProps(prog, file, map[], props, depth).value.1;
            !props[i].OtherProp? && j < |required| && required[j] == props[i].name
    decreases props
  {
    if i == 0 {
      j := 0;
    } else {
      j := RequiredHas(prog, file, props[1..], depth, i - 1);
      if !ReadProp(prog, file, map[], props[0], depth).value.optional {
        j := j + 1;
      }
    }
  }

  // There is such a body as soon as the field accepts absence, as a union with an optional member does.
  lemma {:induction false} LoneFieldFails(prog: Program, file: string, name: string, init: Expr)
    requires Read(prog, file, map[], init, 1).Some? && !Read(prog, file, map[], init, 1).value.optional
    requires exists n: nat :: AcceptsN(n, prog, file, map[], init, Unset, None)
    ensures var e := ZObject([Assign(name, init)]);
            && Accepts(prog, file, e, JObj(map[]))
            && Read(prog, file, map[], e, 0).Some?
            && !Valid(Read(prog, file, map[], e, 0).value.schema, JObj(map[]))
  {
    var n: nat :| AcceptsN(n, prog, file, map[], init, Unset, None);
    var prop := Assign(name, init);
    assert AcceptsProp(n, prog, file, map[], prop, map[]);
    AcceptsWithin(n + 1, prog, file, ZObject([prop]), JObj(map[]));
    assert [prop][1..] == [];
    assert ReadProps(prog, file, map[], [], 0) == Some((map[], []));
    assert ReadProp(prog, file, map[], prop, 0) == Read(prog, file, map[], init, 1);
    assert ReadProps(prog, file, map[], [prop], 0).Some?;
    UntrackedAbsenceFails(prog, file, [prop], 0, map[]);
  }

  lemma {:induction false} UnionAbsenceUntracked(prog: Program, file: string, options: seq<Expr>, x: Expr, i: nat,
                                                 depth: nat)
    requires i < |options| && options[i] == Chain(x, Optional)
    requires Read(prog, file, map[], ZUnion(options), depth).Some?
    ensures !Read(prog, file, map[], ZUnion(options), depth).value.optional
    ensures exists n: nat :: AcceptsN(n, prog, file, map[], ZUnion(options), Unset, None)
  {
    assert AcceptsN(1, prog, file, map[], options[i], Unset, None);
    assert AcceptsN(2, prog, file, map[], ZUnion(options), Unset, None);
  }

  // ----- union types -----

  // Keywords and string literals.
  predicate IsFlat(t: TypeNode) {
    t.StringKeyword? || t.NumberKeyword? || t.BooleanKeyword? || t.StringLiteral?
  }

  function ValueOf(t: TypeNode): Json
    requires IsFlat(t)
  {
    match t
    case StringKeyword => JStr("")
    case NumberKeyword => JNum(0.0)
    case BooleanKeyword => JBool(false)
    case StringLiteral(s) => JStr(s)
  }

  // A value of m that is not one of first.
  lemma Uncovered(first: TypeNode, m: TypeNode) returns (v: Json)
    requires IsFlat(first) && IsFlat(m) && !Covers(first, m)
    ensures AcceptsType(m, map[], Some(v)) && !Valid(TypeToSchema(first, map[]), v)
  {
    v := if m.StringKeyword? && first.StringLiteral? then JStr(first.value + "x") else ValueOf(m);
    assert first.StringLiteral? ==> |first.value + "x"| != |first.value|;
  }

  ghost predicate AllCovered(members: seq<TypeNode>) {
    members != [] && forall i :: 0 <= i < |members| ==> Covers(members[0], members[i])
  }

  /** A declared union of keywords, literals, null and undefined is documented truthfully exactly when
      the concrete members are several literals, or are all covered by the first of them. */
  lemma {:induction false} FlatUnionExact(prog: Program, file: string, members: seq<TypeNode>)
    requires forall i :: 0 <= i < |members| ==> IsNullish(members[i]) || IsFlat(members[i])
    requires NonNull(members) != []
    ensures Truthful(prog, file, ZCustom(Some(Union(members))))
            <==> (|NonNull(members)| > 1 && AllLiterals(NonNull(members))) || AllCovered(NonNull(members))
  {
    var e, nonNull := ZCustom(Some(Union(members))), NonNull(members);
    if (|nonNull| > 1 && AllLiterals(nonNull)) || AllCovered(nonNull) {
      var i := NonNullFrom(members, 0);
      assert FaithfulType(Union(members), map[]);
      forall v: Json | Accepts(prog, file, e, v) ensures Valid(Read(prog, file, map[], e, 0).value.schema, v) {
        BodySound(false, prog, file, e, v);
      }
    } else {
      var v := UncoveredMember(prog, file, members);
    }
  }

  lemma {:induction false} UncoveredMember(prog: Program, file: string, members: seq<TypeNode>) returns (v: Json)
    requires forall i :: 0 <= i < |members| ==> IsNullish(members[i]) || IsFlat(members[i])
    requires NonNull(members) != [] && !AllCovered(NonNull(members))
    requires !(|NonNull(members)| > 1 && AllLiterals(NonNull(members)))
    ensures var e := ZCustom(Some(Union(members)));
            Accepts(prog, file, e, v) && !Valid(Read(prog, file, map[], e, 0).value.schema, v)
  {
    var nonNull := NonNull(members);
    var j :| 0 <= j < |nonNull| && !Covers(nonNull[0], nonNull[j]);
    var i := NonNullFrom(members, j);
    var first := NonNullFrom(members, 0);
    NonNullIsNot(members, 0);
    NonNullIsNot(members, j);
    v := Uncovered(nonNull[0], nonNull[j]);
    assert AcceptsType(members[i], map[], Some(v));
    AcceptsWithin(1, prog, file, ZCustom(Some(Union(members))), v);
    var base := UnionBase(members, map[]);
    assert base == TypeToSchema(nonNull[0], map[]);
    NullableAdmitsNull(base, v);
    assert !v.JNull? && !Valid(base.(nullable := true), v);
    var s := TypeToSchema(Union(members), map[]);
    assert s == base || s == base.(nullable := true);
    assert Read(prog, file, map[], ZCustom(Some(Union(members))), 0) == Plainly(s);
  }

  lemma {:induction false} NonNullIsNot(members: seq<TypeNode>, j: nat)
    requires j < |NonNull(members)|
    ensures !IsNullish(NonNull(members)[j])
  {
    if IsNullish(members[0]) {
      NonNullIsNot(members[1..], j);
    } else if j > 0 {
      NonNullIsNot(members[1..], j - 1);
    }
  }
}
