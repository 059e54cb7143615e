/** Strings as the analyser and the request validator see them. A `char` is one Unicode
    character; JavaScript's `length` counts UTF-16 code units instead, which is `CodeUnits`. */
module Text {

  // The whitespace that JavaScript's String.prototype.trim removes.
  predicate IsSpace(c: char) {
    c in {' ', '\t', '\n', '\r', '\U{000B}', '\U{000C}', '\U{00A0}', '\U{1680}', '\U{2028}', '\U{2029}',
          '\U{202F}', '\U{205F}', '\U{3000}', '\U{FEFF}'} || '\U{2000}' <= c <= '\U{200A}'
  }

  predicate Blank(s: string) {
    forall i :: 0 <= i < |s| ==> IsSpace(s[i])
  }

  function TrimLeft(s: string): string {
    if s != [] && IsSpace(s[0]) then TrimLeft(s[1..]) else s
  }

  function TrimRight(s: string): string {
    if s != [] && IsSpace(s[|s| - 1]) then TrimRight(s[..|s| - 1]) else s
  }

  function Trim(s: string): string {
    TrimRight(TrimLeft(s))
  }

  // One character costs two code units exactly when it lies outside the Basic Multilingual Plane.
  function UnitsOf(c: char): nat {
    if c as int < 0x1_0000 then 1 else 2
  }

  function CodeUnits(s: string): nat {
    if s == [] then 0 else UnitsOf(s[0]) + CodeUnits(s[1..])
  }

  predicate InBmp(s: string) {
    forall i :: 0 <= i < |s| ==> UnitsOf(s[i]) == 1
  }

  lemma {:induction false} CodeUnitsBounds(s: string)
    ensures |s| <= CodeUnits(s) <= 2 * |s|
    ensures InBmp(s) ==> CodeUnits(s) == |s|
  {
    if s == [] {
    } else {
      CodeUnitsBounds(s[1..]);
    }
  }

  lemma {:induction false} CodeUnitsAppend(s: string, c: char)
    ensures CodeUnits(s + [c]) == CodeUnits(s) + UnitsOf(c)
  {
    if s == [] {
      assert s + [c] == [c];
    } else {
      assert (s + [c])[1..] == s[1..] + [c];
      CodeUnitsAppend(s[1..], c);
    }
  }

  lemma {:induction false} TrimRightShortens(s: string)
    ensures CodeUnits(TrimRight(s)) <= CodeUnits(s)
    ensures Blank(s) <==> TrimRight(s) == []
  {
    if s != [] && IsSpace(s[|s| - 1]) {
      var front := s[..|s| - 1];
      TrimRightShortens(front);
      assert s == front + [s[|s| - 1]];
      CodeUnitsAppend(front, s[|s| - 1]);
    }
  }

  // Trimming never lengthens a string, and leaves nothing exactly when there was only whitespace.
  lemma {:induction false} TrimShortens(s: string)
    ensures CodeUnits(Trim(s)) <= CodeUnits(s)
    ensures Blank(s) <==> Trim(s) == []
  {
    if s != [] && IsSpace(s[0]) {
      TrimShortens(s[1..]);
      assert Blank(s) <==> Blank(s[1..]) by { assert s == [s[0]] + s[1..]; }
    } else {
      TrimRightShortens(s);
    }
  }

  // n copies of one character.
  function Repeat(c: char, n: nat): (s: string)
    ensures |s| == n && forall i :: 0 <= i < n ==> s[i] == c
  {
    seq(n, _ => c)
  }

  lemma {:induction false} CodeUnitsRepeat(c: char, n: nat)
    ensures CodeUnits(Repeat(c, n)) == UnitsOf(c) * n
  {
    if n == 0 {
    } else {
      assert Repeat(c, n)[1..] == Repeat(c, n - 1);
      CodeUnitsRepeat(c, n - 1);
    }
  }
}
