/** A stable sort, as the library call the program relies on. The order is given by a relation
    "may come first", which must be total and transitive. */
module Sorting {

  ghost predicate TotalPreorder<T(!new)>(leq: (T, T) -> bool) {
    && (forall x, y :: leq(x, y) || leq(y, x))
    && (forall x, y, z :: leq(x, y) && leq(y, z) ==> leq(x, z))
  }

  ghost predicate SortedBy<T>(leq: (T, T) -> bool, s: seq<T>) {
    forall i, j :: 0 <= i < j < |s| ==> leq(s[i], s[j])
  }

  // Puts x before the first element that need not come before it.
  function Insert<T>(leq: (T, T) -> bool, x: T, s: seq<T>): seq<T> {
    if s == [] || leq(x, s[0]) then [x] + s else [s[0]] + Insert(leq, x, s[1..])
  }

  function StableSort<T>(leq: (T, T) -> bool, s: seq<T>): seq<T> {
    if s == [] then [] else Insert(leq, s[0], StableSort(leq, s[1..]))
  }

  lemma {:induction false} InsertAdds<T>(leq: (T, T) -> bool, x: T, s: seq<T>)
    ensures multiset(Insert(leq, x, s)) == multiset([x] + s)
  {
    if s == [] || leq(x, s[0]) {
    } else {
      InsertAdds(leq, x, s[1..]);
      assert s == [s[0]] + s[1..];
    }
  }

  lemma {:induction false} InsertSorts<T(!new)>(leq: (T, T) -> bool, x: T, s: seq<T>)
    requires TotalPreorder(leq) && SortedBy(leq, s)
    ensures SortedBy(leq, Insert(leq, x, s))
  {
    if s == [] || leq(x, s[0]) {
      assert forall j :: 0 <= j < |s| ==> leq(x, s[0]) && (j > 0 ==> leq(s[0], s[j]));
    } else {
      InsertSorts(leq, x, s[1..]);
      InsertAdds(leq, x, s[1..]);
      forall y | y in Insert(leq, x, s[1..]) ensures leq(s[0], y) {
        assert y in multiset([x] + s[1..]);
      }
    }
  }

  /** The result is sorted and has the same elements. */
  lemma {:induction false} StableSortSorts<T(!new)>(leq: (T, T) -> bool, s: seq<T>)
    ensures multiset(StableSort(leq, s)) == multiset(s)
    ensures TotalPreorder(leq) ==> SortedBy(leq, StableSort(leq, s))
  {
    if s != [] {
      StableSortSorts(leq, s[1..]);
      InsertAdds(leq, s[0], StableSort(leq, s[1..]));
      assert s == [s[0]] + s[1..];
      if TotalPreorder(leq) {
        InsertSorts(leq, s[0], StableSort(leq, s[1..]));
      }
    }
  }

  lemma {:induction false} SortedIsFixed<T(!new)>(leq: (T, T) -> bool, s: seq<T>)
    requires SortedBy(leq, s)
    ensures StableSort(leq, s) == s
  {
    if s != [] {
      SortedIsFixed(leq, s[1..]);
    }
  }
}
