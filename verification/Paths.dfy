/** Joining mount prefixes with route paths, and turning `:param` segments into `{param}`. */
module Paths {
  import opened Lists

  // ----- joinPaths -----

  function StripLeft(p: string): string {
    if p != [] && p[0] == '/' then StripLeft(p[1..]) else p
  }

  function StripRight(p: string): string {
    if p != [] && p[|p| - 1] == '/' then StripRight(p[..|p| - 1]) else p
  }

  function Strip(p: string): string {
    StripRight(StripLeft(p))
  }

  // The stripped parts that are not empty.
  function Clean(parts: seq<string>): seq<string> {
    if parts == [] then []
    else if Strip(parts[0]) == [] then Clean(parts[1..])
    else [Strip(parts[0])] + Clean(parts[1..])
  }

  function Join(parts: seq<string>): string {
    if parts == [] then []
    else if |parts| == 1 then parts[0]
    else parts[0] + "/" + Join(parts[1..])
  }

  function JoinPaths(parts: seq<string>): string {
    "/" + Join(Clean(parts))
  }

  // No slash at either end.
  predicate Bare(p: string) {
    p != [] && p[0] != '/' && p[|p| - 1] != '/'
  }

  predicate AllBare(parts: seq<string>) {
    forall i :: 0 <= i < |parts| ==> Bare(parts[i])
  }

  lemma {:induction false} StripRightEnds(p: string)
    ensures StripRight(p) != [] ==> StripRight(p)[|StripRight(p)| - 1] != '/'
    ensures StripRight(p) != [] ==> p != [] && StripRight(p)[0] == p[0]
  {
    if p != [] && p[|p| - 1] == '/' {
      StripRightEnds(p[..|p| - 1]);
    }
  }

  lemma {:induction false} StripIsBare(p: string)
    ensures Strip(p) == [] || Bare(Strip(p))
    ensures Bare(p) ==> Strip(p) == p
    ensures Bare(p) ==> Strip("/" + p) == p
  {
    if p != [] && p[0] == '/' {
      StripIsBare(p[1..]);
    } else {
      StripRightEnds(p);
      assert ("/" + p)[1..] == p;
    }
  }

  lemma {:induction false} CleanIsBare(parts: seq<string>)
    ensures AllBare(Clean(parts))
  {
    if parts != [] {
      StripIsBare(parts[0]);
      CleanIsBare(parts[1..]);
    }
  }

  lemma {:induction false} CleanAppend(a: seq<string>, b: seq<string>)
    ensures Clean(a + b) == Clean(a) + Clean(b)
  {
    if a == [] {
      assert a + b == b;
    } else {
      assert (a + b)[1..] == a[1..] + b;
      CleanAppend(a[1..], b);
    }
  }

  lemma {:induction false} JoinIsBare(parts: seq<string>)
    requires AllBare(parts) && parts != []
    ensures Bare(Join(parts))
  {
    if |parts| > 1 {
      JoinIsBare(parts[1..]);
    }
  }

  // A joined run of parts acts as one part.
  lemma {:induction false} JoinAppend(a: seq<string>, b: seq<string>)
    requires a != [] && b != []
    ensures Join(a + b) == Join(a) + "/" + Join(b)
  {
    if |a| == 1 {
      assert (a + b)[1..] == b;
    } else {
      assert (a + b)[1..] == a[1..] + b;
      JoinAppend(a[1..], b);
    }
  }

  lemma {:induction false} JoinNested(a: seq<string>, b: seq<string>, c: seq<string>)
    requires b != []
    ensures Join(a + [Join(b)] + c) == Join(a + b + c)
  {
    JoinAround(a, [Join(b)], c);
    JoinAround(a, b, c);
  }

  lemma {:induction false} JoinAround(a: seq<string>, b: seq<string>, c: seq<string>)
    requires b != []
    ensures Join(a + b + c) == (if a == [] then [] else Join(a) + "/") + Join(b)
        + (if c == [] then [] else "/" + Join(c))
  {
    var bc := b + c;
    assert a + b + c == a + bc;
    if c == [] {
      assert bc == b;
    } else {
      JoinAppend(b, c);
    }
    if a == [] {
      assert a + bc == bc;
    } else {
      JoinAppend(a, bc);
    }
  }

  /** A joined path has exactly one leading slash and no trailing slash, except the root itself. */
  lemma {:induction false} JoinPathsShape(parts: seq<string>)
    ensures var p := JoinPaths(parts); p == "/" || (p[0] == '/' && Bare(p[1..]))
  {
    CleanIsBare(parts);
    if Clean(parts) != [] {
      JoinIsBare(Clean(parts));
      assert JoinPaths(parts)[1..] == Join(Clean(parts));
    }
  }

  /** Joining is associative: a joined path among the parts can be replaced by its own parts. With
      no other parts this is idempotence. */
  lemma {:induction false} JoinPathsFlattens(before: seq<string>, parts: seq<string>, after: seq<string>)
    ensures JoinPaths(before + [JoinPaths(parts)] + after) == JoinPaths(before + parts + after)
  {
    var joined := JoinPaths(parts);
    CleanAppend(before + [joined], after);
    CleanAppend(before, [joined]);
    CleanAppend(before + parts, after);
    CleanAppend(before, parts);
    CleanIsBare(parts);
    assert [joined][1..] == [];
    if Clean(parts) == [] {
      assert Strip("/") == [] by { assert "/"[1..] == []; }
    } else {
      JoinIsBare(Clean(parts));
      StripIsBare(Join(Clean(parts)));
      assert Clean([joined]) == [Join(Clean(parts))];
      JoinNested(Clean(before), Clean(parts), Clean(after));
    }
  }

  // The characters before the first c.
  function UpTo(s: string, c: char): (n: nat)
    ensures n <= |s| && forall i :: 0 <= i < n ==> s[i] != c
    ensures n < |s| ==> s[n] == c
  {
    if s == [] || s[0] == c then 0 else 1 + UpTo(s[1..], c)
  }

  // The non-empty segments of a path.
  function Segments(p: string): seq<string>
    decreases |p|
  {
    if p == [] then []
    else if p[0] == '/' then Segments(p[1..])
    else
      var n := UpTo(p, '/');
      [p[..n]] + Segments(p[n..])
  }

  function SegmentsOfAll(parts: seq<string>): seq<string> {
    if parts == [] then [] else Segments(parts[0]) + SegmentsOfAll(parts[1..])
  }

  lemma UpToIs(s: string, c: char, n: nat)
    requires n < |s| && s[n] == c && forall i :: 0 <= i < n ==> s[i] != c
    ensures UpTo(s, c) == n
  {
  }

  // The first segment of a, when something follows after a slash.
  lemma FirstSegment(a: string, b: string, n: nat)
    requires a != [] && a[0] != '/' && n == UpTo(a, '/')
    ensures 0 < n && Segments(a + "/" + b) == [a[..n]] + Segments(a[n..] + "/" + b)
  {
    var p := a + "/" + b;
    UpToIs(p, '/', n);
    assert p[..n] == a[..n] && p[n..] == a[n..] + "/" + b;
  }

  lemma {:induction false} SegmentsAcross(a: string, b: string)
    ensures Segments(a + "/" + b) == Segments(a) + Segments(b)
    decreases |a|
  {
    if a == [] {
      assert (a + "/" + b)[1..] == b;
    } else if a[0] == '/' {
      assert (a + "/" + b)[1..] == a[1..] + "/" + b;
      SegmentsAcross(a[1..], b);
    } else {
      var n := UpTo(a, '/');
      FirstSegment(a, b, n);
      SegmentsAcross(a[n..], b);
      ConcatAssociates([a[..n]], Segments(a[n..]), Segments(b));
    }
  }

  lemma {:induction false} SegmentsOfStrip(p: string)
    ensures Segments(StripLeft(p)) == Segments(p) && Segments(StripRight(p)) == Segments(p)
    decreases |p|
  {
    if p != [] && p[0] == '/' {
      SegmentsOfStrip(p[1..]);
    }
    if p != [] && p[|p| - 1] == '/' {
      SegmentsOfStrip(p[..|p| - 1]);
      SegmentsAcross(p[..|p| - 1], []);
      assert p == p[..|p| - 1] + "/" + [];
    }
  }

  lemma {:induction false} SegmentsOfClean(parts: seq<string>)
    ensures SegmentsOfAll(Clean(parts)) == SegmentsOfAll(parts)
  {
    if parts != [] {
      SegmentsOfClean(parts[1..]);
      SegmentsOfStrip(parts[0]);
      SegmentsOfStrip(StripLeft(parts[0]));
    }
  }

  lemma {:induction false} SegmentsOfJoin(parts: seq<string>)
    ensures Segments(Join(parts)) == SegmentsOfAll(parts)
  {
    if parts != [] {
      SegmentsOfJoin(parts[1..]);
      if |parts| > 1 {
        SegmentsAcross(parts[0], Join(parts[1..]));
      } else {
        assert SegmentsOfAll(parts[1..]) == [];
      }
    }
  }

  /** Joining neither loses nor adds a segment, and keeps their order. */
  lemma JoinPathsKeepsSegments(parts: seq<string>)
    ensures Segments(JoinPaths(parts)) == SegmentsOfAll(parts)
  {
    SegmentsOfJoin(Clean(parts));
    SegmentsOfClean(parts);
    assert JoinPaths(parts)[1..] == Join(Clean(parts));
  }

  // ----- convertPath -----

  predicate IsNameChar(c: char) {
    'A' <= c <= 'Z' || 'a' <= c <= 'z' || '0' <= c <= '9' || c == '_'
  }

  // The longest run of name characters at the front.
  function NameLength(s: string): (n: nat)
    ensures n <= |s| && forall i :: 0 <= i < n ==> IsNameChar(s[i])
    ensures n < |s| ==> !IsNameChar(s[n])
  {
    if s != [] && IsNameChar(s[0]) then 1 + NameLength(s[1..]) else 0
  }

  predicate StartsParam(p: string) {
    |p| > 1 && p[0] == ':' && IsNameChar(p[1])
  }

  function Converted(p: string): string {
    if p == [] then []
    else if StartsParam(p) then
      var n := NameLength(p[1..]);
      "{" + p[1..n + 1] + "}" + Converted(p[n + 1..])
    else [p[0]] + Converted(p[1..])
  }

  function Params(p: string): seq<string> {
    if p == [] then []
    else if StartsParam(p) then
      var n := NameLength(p[1..]);
      [p[1..n + 1]] + Params(p[n + 1..])
    else Params(p[1..])
  }

  /** The replacement as it runs: one scan, pushing each parameter as it is replaced. */
  method ConvertPath(p: string) returns (openapiPath: string, pathParams: seq<string>)
    ensures openapiPath == Converted(p) && pathParams == Params(p)
  {
    openapiPath, pathParams := [], [];
    var i := 0;
    while i < |p|
      invariant 0 <= i <= |p|
      invariant openapiPath + Converted(p[i..]) == Converted(p)
      invariant pathParams + Params(p[i..]) == Params(p)
    {
      var rest := p[i..];
      if StartsParam(rest) {
        var n := NameLength(rest[1..]);
        assert rest[n + 1..] == p[i + n + 1..];
        ConcatAssociates(openapiPath, "{" + rest[1..n + 1] + "}", Converted(rest[n + 1..]));
        ConcatAssociates(pathParams, [rest[1..n + 1]], Params(rest[n + 1..]));
        openapiPath := openapiPath + ("{" + rest[1..n + 1] + "}");
        pathParams := pathParams + [rest[1..n + 1]];
        i := i + n + 1;
      } else {
        assert rest[1..] == p[i + 1..];
        ConcatAssociates(openapiPath, [rest[0]], Converted(rest[1..]));
        openapiPath := openapiPath + [rest[0]];
        i := i + 1;
      }
    }
  }

  // A character of the class \w: the ASCII digits, capitals, underscore and small letters, by code point.
  predicate IsAsciiWord(c: char) {
    var code := c as int;
    48 <= code <= 57 || 65 <= code <= 90 || code == 95 || 97 <= code <= 122
  }

  /** No colon is left in front of a word character. */
  lemma NoParamLeft(p: string, i: nat)
    requires i + 1 < |Converted(p)| && Converted(p)[i] == ':'
    ensures !IsAsciiWord(Converted(p)[i + 1])
  {
    NoParamFrom(p, i);
  }

  /** And what became a parameter is a word: at least one character, and word characters only. */
  lemma {:induction false} ParamsAreWords(p: string, k: nat)
    requires k < |Params(p)|
    ensures Params(p)[k] != [] && forall i :: 0 <= i < |Params(p)[k]| ==> IsAsciiWord(Params(p)[k][i])
    decreases |p|
  {
    if StartsParam(p) {
      var n := NameLength(p[1..]);
      if k > 0 {
        ParamsAreWords(p[n + 1..], k - 1);
      } else {
        assert Params(p)[0] == p[1..][..n];
      }
    } else {
      ParamsAreWords(p[1..], k);
    }
  }

  lemma {:induction false} NoParamFrom(p: string, i: nat)
    requires i < |Converted(p)|
    ensures !StartsParam(Converted(p)[i..])
    decreases |p|
  {
    if StartsParam(p) {
      var n := NameLength(p[1..]);
      var braced, rest := "{" + p[1..n + 1] + "}", Converted(p[n + 1..]);
      assert Converted(p) == braced + rest;
      if i < |braced| {
        assert braced[i] != ':' by {
          assert i > 0 && i < |braced| - 1 ==> braced[i] == p[i] == p[1..][i - 1];
        }
      } else {
        NoParamFrom(p[n + 1..], i - |braced|);
        assert Converted(p)[i..] == rest[i - |braced|..];
      }
    } else if i == 0 {
      FirstConverted(p[1..]);
    } else {
      NoParamFrom(p[1..], i - 1);
      assert Converted(p)[i..] == Converted(p[1..])[i - 1..];
    }
  }

  lemma FirstConverted(p: string)
    ensures Converted(p) == [] <==> p == []
    ensures p != [] ==> Converted(p)[0] in {p[0], '{'}
  {
  }

  // Reading `{name}` back as `:name`.
  function Restored(q: string): string {
    if q == [] then []
    else if q[0] == '{' && UpTo(q, '}') < |q| then
      var n := UpTo(q, '}');
      ":" + q[1..n] + Restored(q[n + 1..])
    else [q[0]] + Restored(q[1..])
  }

  // The names between braces, in order.
  function Placeholders(q: string): seq<string> {
    if q == [] then []
    else if q[0] == '{' && UpTo(q, '}') < |q| then
      var n := UpTo(q, '}');
      [q[1..n]] + Placeholders(q[n + 1..])
    else Placeholders(q[1..])
  }

  predicate BraceFree(p: string) {
    forall i :: 0 <= i < |p| ==> p[i] != '{' && p[i] != '}'
  }

  lemma {:induction false} StripBraceFree(p: string)
    requires BraceFree(p)
    ensures BraceFree(StripLeft(p)) && BraceFree(StripRight(p))
  {
    if p != [] && p[0] == '/' {
      StripBraceFree(p[1..]);
    }
    if p != [] && p[|p| - 1] == '/' {
      StripBraceFree(p[..|p| - 1]);
    }
  }

  lemma {:induction false} JoinBraceFree(parts: seq<string>)
    requires forall i :: 0 <= i < |parts| ==> BraceFree(parts[i])
    ensures BraceFree(Join(Clean(parts)))
  {
    if parts != [] {
      StripBraceFree(parts[0]);
      StripBraceFree(StripLeft(parts[0]));
      JoinBraceFree(parts[1..]);
      if Strip(parts[0]) != [] {
        assert Clean(parts)[0] == Strip(parts[0]) && Clean(parts)[1..] == Clean(parts[1..]);
      }
    }
  }

  /** On brace-free parts, the joined and converted path is, read back, the parts one after the other. */
  lemma ConvertedSegments(parts: seq<string>)
    requires forall i :: 0 <= i < |parts| ==> BraceFree(parts[i])
    ensures Segments(Restored(Converted(JoinPaths(parts)))) == SegmentsOfAll(parts)
  {
    JoinBraceFree(parts);
    ConversionRoundTrip(JoinPaths(parts));
    JoinPathsKeepsSegments(parts);
  }

  lemma {:induction false} UpToFinds(name: string, rest: string)
    requires forall i :: 0 <= i < |name| ==> name[i] != '}'
    ensures UpTo(name + "}" + rest, '}') == |name|
  {
    if name == [] {
      assert name + "}" + rest == "}" + rest;
    } else {
      assert (name + "}" + rest)[1..] == name[1..] + "}" + rest;
      UpToFinds(name[1..], rest);
    }
  }

  /** On brace-free paths conversion loses nothing: restoring gives the path back, and the parameters
      are the placeholders of the converted path, in order. */
  lemma {:induction false} ConversionRoundTrip(p: string)
    requires BraceFree(p)
    ensures Restored(Converted(p)) == p && Placeholders(Converted(p)) == Params(p)
    decreases |p|
  {
    if p == [] {
    } else if StartsParam(p) {
      var n := NameLength(p[1..]);
      var name, rest := p[1..n + 1], p[n + 1..];
      ConversionRoundTrip(rest);
      RestoreBraced(name, Converted(rest));
      ParamInFront(p, n);
    } else {
      ConversionRoundTrip(p[1..]);
      RestorePlain(p[0], Converted(p[1..]));
      assert p == [p[0]] + p[1..];
    }
  }

  lemma ParamInFront(p: string, n: nat)
    requires n < |p| && p[0] == ':'
    ensures p == ":" + p[1..n + 1] + p[n + 1..]
  {
  }

  lemma {:induction false} RestorePlain(c: char, rest: string)
    requires c != '{'
    ensures Restored([c] + rest) == [c] + Restored(rest)
    ensures Placeholders([c] + rest) == Placeholders(rest)
  {
    assert ([c] + rest)[1..] == rest;
  }

  lemma {:induction false} RestoreBraced(name: string, rest: string)
    requires forall i :: 0 <= i < |name| ==> IsNameChar(name[i])
    ensures Restored("{" + name + "}" + rest) == ":" + name + Restored(rest)
    ensures Placeholders("{" + name + "}" + rest) == [name] + Placeholders(rest)
  {
    var q := "{" + name + "}" + rest;
    UpToFinds("{" + name, rest);
    assert q[1..|name| + 1] == name && q[|name| + 2..] == rest;
  }

  /** So two different brace-free route paths never become the same documented path. */
  lemma {:induction false} ConversionInjective(p: string, q: string)
    requires BraceFree(p) && BraceFree(q) && Converted(p) == Converted(q)
    ensures p == q
  {
    ConversionRoundTrip(p);
    ConversionRoundTrip(q);
  }
}
