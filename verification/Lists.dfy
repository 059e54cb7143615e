/** Small shared vocabulary: an optional value and first-occurrence de-duplication. */
module Lists {

  datatype Option<+T> = None | Some(value: T)

  ghost predicate NoDuplicates<T>(s: seq<T>) {
    forall i, j :: 0 <= i < j < |s| ==> s[i] != s[j]
  }

  // The elements of s in order, each kept only where it first occurs.
  function Dedup<T(==, !new)>(s: seq<T>): (r: seq<T>)
    ensures forall x :: x in r <==> x in s
    ensures NoDuplicates(r)
  {
    if s == [] then []
    else
      var front := Dedup(s[..|s| - 1]);
      assert s == s[..|s| - 1] + [s[|s| - 1]];
      if s[|s| - 1] in front then front else front + [s[|s| - 1]]
  }

  // Two duplicate-free lists of the same elements are permutations of each other.
  lemma {:induction false} SameElementsSameMultiset<T(!new)>(a: seq<T>, b: seq<T>)
    requires NoDuplicates(a) && NoDuplicates(b)
    requires forall x :: x in a <==> x in b
    ensures multiset(a) == multiset(b)
  {
    forall x ensures multiset(a)[x] == multiset(b)[x] {
      CountOfUnique(a, x);
      CountOfUnique(b, x);
    }
  }

  lemma {:induction false} CountOfUnique<T(!new)>(s: seq<T>, x: T)
    requires NoDuplicates(s)
    ensures multiset(s)[x] == if x in s then 1 else 0
  {
    if s == [] {
    } else {
      var front, last := s[..|s| - 1], s[|s| - 1];
      assert s == front + [last];
      CountOfUnique(front, x);
    }
  }

  lemma NoDuplicatesConcat<T>(a: seq<T>, b: seq<T>)
    requires NoDuplicates(a) && NoDuplicates(b)
    requires forall i :: 0 <= i < |a| ==> a[i] !in b
    ensures NoDuplicates(a + b)
  {
  }

  lemma ConcatAssociates<T>(a: seq<T>, b: seq<T>, c: seq<T>)
    ensures a + (b + c) == a + b + c
  {
  }

  lemma NothingConcat<T>(s: seq<T>)
    ensures [] + s == s
  {
  }

  lemma CancelOne<T>(k: T, a: multiset<T>, b: multiset<T>)
    requires multiset{k} + a == multiset{k} + b
    ensures a == b
  {
    assert a == (multiset{k} + a) - multiset{k};
    assert b == (multiset{k} + b) - multiset{k};
  }
}
