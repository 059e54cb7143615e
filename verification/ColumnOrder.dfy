/** Reordering board columns by dragging: integer midpoint placement against moving an element of
    a list. */
module ColumnOrder {
  import opened Lists
  import opened Sorting

  // A column that is not active (the backlog, the archive) lives on the board but is not draggable.
  datatype Column = Column(id: string, sortOrder: int, active: bool)

  predicate ByOrder(a: Column, b: Column) {
    a.sortOrder <= b.sortOrder
  }

  predicate DistinctIds(cs: seq<Column>) {
    forall i, j :: 0 <= i < j < |cs| ==> cs[i].id != cs[j].id
  }

  predicate Ascending(cs: seq<Column>) {
    forall i, j :: 0 <= i < j < |cs| ==> cs[i].sortOrder <= cs[j].sortOrder
  }

  function Sorted(cs: seq<Column>): seq<Column> {
    StableSort(ByOrder, cs)
  }

  function Active(cs: seq<Column>): seq<Column> {
    if cs == [] then [] else (if cs[0].active then [cs[0]] else []) + Active(cs[1..])
  }

  // The position of a column, -1 when it is not there.
  function IndexOf(cs: seq<Column>, id: string): (r: int)
    ensures -1 <= r < |cs|
    ensures r >= 0 ==> cs[r].id == id
    ensures r < 0 ==> forall i :: 0 <= i < |cs| ==> cs[i].id != id
  {
    if cs == [] then -1
    else if cs[0].id == id then 0
    else
      var r := IndexOf(cs[1..], id);
      assert r < 0 ==> forall i :: 1 <= i < |cs| ==> cs[i] == cs[1..][i - 1];
      if r < 0 then -1 else r + 1
  }

  // Halves rounded towards positive infinity, as Math.round does.
  function Midpoint(a: int, b: int): int {
    (a + b + 1) / 2
  }

  function Placement(cs: seq<Column>, source: int, target: nat): int
    requires target < |cs|
  {
    if source > target then
      if target == 0 then cs[0].sortOrder - 100 else Midpoint(cs[target - 1].sortOrder, cs[target].sortOrder)
    else
      if target == |cs| - 1 then cs[target].sortOrder + 100
      else Midpoint(cs[target].sortOrder, cs[target + 1].sortOrder)
  }

  function Renumber(cs: seq<Column>, id: string, order: int): (r: seq<Column>)
    ensures |r| == |cs|
    ensures forall i :: 0 <= i < |cs| ==> r[i] == if cs[i].id == id then cs[i].(sortOrder := order) else cs[i]
  {
    seq(|cs|, i requires 0 <= i < |cs| => if cs[i].id == id then cs[i].(sortOrder := order) else cs[i])
  }

  // The list with the element at source taken out and x put at index target.
  function Moved(cs: seq<Column>, source: nat, target: nat, x: Column): (r: seq<Column>)
    requires source < |cs| && target < |cs|
    ensures |r| == |cs| && r[target] == x
  {
    var rest := cs[..source] + cs[source + 1..];
    rest[..target] + [x] + rest[target..]
  }

  // The neighbours between which the column is put leave room for it.
  predicate HasRoom(cs: seq<Column>, source: nat, target: nat)
    requires source < |cs| && target < |cs|
  {
    if source > target then target == 0 || cs[target].sortOrder - cs[target - 1].sortOrder >= 2
    else target == |cs| - 1 || cs[target + 1].sortOrder - cs[target].sortOrder >= 1
  }

  // ----- the drag handlers -----

  class Board {
    var columns: seq<Column>
    var dragged: Option<string>
    var dragOver: Option<string>

    ghost predicate Valid()
      reads this
    {
      DistinctIds(columns) && Ascending(columns)
    }

    constructor (columns: seq<Column>)
      requires DistinctIds(columns) && Ascending(columns)
      ensures Valid() && this.columns == columns && dragged == None && dragOver == None
    {
      this.columns := columns;
      dragged, dragOver := None, None;
    }

    method DragStart(columnId: string)
      modifies this`dragged
      ensures dragged == Some(columnId)
    {
      dragged := Some(columnId);
    }

    method DragOver(columnId: string)
      modifies this`dragOver
      ensures dragOver == if dragged in {None, Some(columnId)} then old(dragOver) else Some(columnId)
    {
      if dragged == None || dragged == Some(columnId) {
        return;
      }
      dragOver := Some(columnId);
    }

    method DragLeave(columnId: string)
      modifies this`dragOver
      ensures dragOver == if old(dragOver) == Some(columnId) then None else old(dragOver)
    {
      if dragOver == Some(columnId) {
        dragOver := None;
      }
    }

    // A drop of a dragged column on another active column reorders; every other drop only ends the drag.
    method Drop(targetId: string, saved: bool)
      requires Valid()
      modifies this
      ensures Valid() && dragged == None && dragOver == None
      ensures columns == if saved && old(dragged).Some? then AfterDrop(old(columns), old(dragged).value, targetId)
                         else old(columns)
    {
      dragOver := None;
      var source := dragged;
      dragged := None;
      if source == None || source.value == targetId {
        return;
      }
      var sorted := Sorted(Active(columns));
      var targetIdx := IndexOf(sorted, targetId);
      if targetIdx < 0 {
        return;
      }
      var sourceIdx := IndexOf(sorted, source.value);
      Reorder(source.value, Placement(sorted, sourceIdx, targetIdx), saved);
    }

    // Shown at once, and taken back when saving fails.
    method Reorder(columnId: string, order: int, saved: bool)
      requires Valid()
      modifies this`columns
      ensures Valid()
      ensures columns == if saved then Sorted(Renumber(old(columns), columnId, order)) else old(columns)
    {
      var snapshot := columns;
      RenumberedKeepsIds(columns, columnId, order);
      columns := Sorted(Renumber(columns, columnId, order));
      if !saved {
        columns := snapshot;
      }
    }

    method DragEnd()
      modifies this`dragged, this`dragOver
      ensures dragged == None && dragOver == None
    {
      dragged, dragOver := None, None;
    }
  }

  // The board after dropping column sourceId on column targetId.
  function AfterDrop(columns: seq<Column>, sourceId: string, targetId: string): seq<Column> {
    var sorted := Sorted(Active(columns));
    var target := IndexOf(sorted, targetId);
    if sourceId == targetId || target < 0 then columns
    else Sorted(Renumber(columns, sourceId, Placement(sorted, IndexOf(sorted, sourceId), target)))
  }

  // ----- sorting columns -----

  lemma OrderIsPreorder()
    ensures TotalPreorder(ByOrder)
  {
  }

  lemma {:induction false} SortedAscends(cs: seq<Column>)
    ensures Ascending(Sorted(cs)) && multiset(Sorted(cs)) == multiset(cs)
  {
    OrderIsPreorder();
    StableSortSorts(ByOrder, cs);
    var r := Sorted(cs);
    forall i, j | 0 <= i < j < |r| ensures r[i].sortOrder <= r[j].sortOrder {
      assert ByOrder(r[i], r[j]);
    }
  }

  lemma {:induction false} AscendingIsFixed(cs: seq<Column>)
    requires Ascending(cs)
    ensures Sorted(cs) == cs
  {
    if cs != [] {
      AscendingIsFixed(cs[1..]);
    }
  }

  lemma {:induction false} PermutedIdsDistinct(a: seq<Column>, b: seq<Column>)
    requires DistinctIds(a) && multiset(a) == multiset(b)
    ensures DistinctIds(b)
  {
    assert NoDuplicates(a);
    forall i, j | 0 <= i < j < |b| ensures b[i].id != b[j].id {
      assert b[i] in multiset(b) && b[j] in multiset(b);
      CountOfUnique(a, b[i]);
      assert b == b[..i] + [b[i]] + b[i + 1..j] + [b[j]] + b[j + 1..];
      assert multiset(b)[b[i]] >= if b[i] == b[j] then 2 else 1;
    }
  }

  // Renumbering one column and sorting keeps the board well formed.
  lemma RenumberedKeepsIds(cs: seq<Column>, id: string, order: int)
    requires DistinctIds(cs)
    ensures DistinctIds(Sorted(Renumber(cs, id, order))) && Ascending(Sorted(Renumber(cs, id, order)))
  {
    SortedAscends(Renumber(cs, id, order));
    PermutedIdsDistinct(Renumber(cs, id, order), Sorted(Renumber(cs, id, order)));
  }

  // ----- the active columns of a sorted board -----

  lemma {:induction false} ActiveOfAscending(cs: seq<Column>)
    requires Ascending(cs)
    ensures Ascending(Active(cs))
    ensures forall c :: c in Active(cs) ==> c in cs
  {
    if cs != [] {
      ActiveOfAscending(cs[1..]);
      assert forall c :: c in cs[1..] ==> cs[0].sortOrder <= c.sortOrder;
    }
  }

  lemma {:induction false} ActiveOfDistinct(cs: seq<Column>)
    requires DistinctIds(cs)
    ensures DistinctIds(Active(cs))
    ensures forall c :: c in Active(cs) ==> c in cs
  {
    if cs != [] {
      ActiveOfDistinct(cs[1..]);
      assert forall c :: c in cs[1..] ==> c.id != cs[0].id;
    }
  }

  lemma ActiveOfCons(c: Column, cs: seq<Column>)
    ensures Active([c] + cs) == if c.active then [c] + Active(cs) else Active(cs)
  {
    assert ([c] + cs)[1..] == cs;
  }

  lemma TailOf<T>(x: T, s: seq<T>)
    ensures ([x] + s)[0] == x && ([x] + s)[1..] == s
  {
  }

  lemma {:induction false} ActiveOfInsert(x: Column, cs: seq<Column>)
    requires Ascending(cs)
    ensures Active(Insert(ByOrder, x, cs)) == if x.active then Insert(ByOrder, x, Active(cs)) else Active(cs)
  {
    if cs == [] || ByOrder(x, cs[0]) {
      ActiveOfCons(x, cs);
      ActiveOfAscending(cs);
      if Active(cs) != [] {
        assert Active(cs)[0] in cs;
      }
    } else {
      ActiveOfInsert(x, cs[1..]);
      ActiveOfCons(cs[0], Insert(ByOrder, x, cs[1..]));
      ActiveOfCons(cs[0], cs[1..]);
      assert cs == [cs[0]] + cs[1..];
      TailOf(cs[0], Active(cs[1..]));
    }
  }

  // Looking only at the active columns commutes with sorting the whole board.
  lemma {:induction false} ActiveOfSorted(cs: seq<Column>)
    ensures Active(Sorted(cs)) == Sorted(Active(cs))
  {
    if cs != [] {
      ActiveOfSorted(cs[1..]);
      SortedAscends(cs[1..]);
      ActiveOfInsert(cs[0], Sorted(cs[1..]));
      ActiveOfCons(cs[0], cs[1..]);
      assert cs == [cs[0]] + cs[1..];
      TailOf(cs[0], Active(cs[1..]));
    }
  }

  lemma {:induction false} ActiveOfRenumbered(cs: seq<Column>, id: string, order: int)
    ensures Active(Renumber(cs, id, order)) == Renumber(Active(cs), id, order)
  {
    if cs != [] {
      ActiveOfRenumbered(cs[1..], id, order);
      assert Renumber(cs, id, order)[1..] == Renumber(cs[1..], id, order);
    }
  }

  // ----- where one renumbered column lands -----

  lemma {:induction false} InsertPast(x: Column, smaller: seq<Column>, rest: seq<Column>)
    requires forall i :: 0 <= i < |smaller| ==> smaller[i].sortOrder < x.sortOrder
    requires rest == [] || x.sortOrder <= rest[0].sortOrder
    ensures Insert(ByOrder, x, smaller + rest) == smaller + [x] + rest
  {
    if smaller == [] {
      assert smaller + rest == rest;
    } else {
      InsertPast(x, smaller[1..], rest);
      assert (smaller + rest)[1..] == smaller[1..] + rest;
      assert smaller + [x] + rest == [smaller[0]] + (smaller[1..] + [x] + rest);
    }
  }

  lemma {:induction false} SortAfter(front: seq<Column>, tail: seq<Column>)
    requires Ascending(front + Sorted(tail))
    ensures Sorted(front + tail) == front + Sorted(tail)
  {
    if front == [] {
      assert front + tail == tail && front + Sorted(tail) == Sorted(tail);
    } else {
      var whole := front + Sorted(tail);
      assert whole[1..] == front[1..] + Sorted(tail) && (front + tail)[1..] == front[1..] + tail;
      assert Ascending(whole[1..]);
      SortAfter(front[1..], tail);
      assert (front + tail)[0] == front[0] == whole[0];
      assert Insert(ByOrder, front[0], whole[1..]) == [front[0]] + whole[1..];
    }
  }

  // Smaller ones that stood behind x end up before it.
  lemma FallsBehind(x: Column, smaller: seq<Column>, rest: seq<Column>)
    requires Ascending(smaller + rest)
    requires forall i :: 0 <= i < |smaller| ==> smaller[i].sortOrder < x.sortOrder
    requires rest == [] || x.sortOrder <= rest[0].sortOrder
    ensures Sorted([x] + (smaller + rest)) == smaller + [x] + rest
  {
    AscendingIsFixed(smaller + rest);
    InsertPast(x, smaller, rest);
    TailOf(x, smaller + rest);
  }

  // The list after x has moved to the right, up to just before index u.
  function ShiftedRight(cs: seq<Column>, source: nat, u: nat, x: Column): (r: seq<Column>)
    requires source < u <= |cs|
    ensures |r| == |cs|
    ensures forall i :: 0 <= i < |cs| ==>
              r[i] == if i < source then cs[i] else if i < u - 1 then cs[i + 1] else if i == u - 1 then x else cs[i]
  {
    cs[..source] + (cs[source + 1..u] + [x] + cs[u..])
  }

  lemma {:induction false} LandsRight(cs: seq<Column>, source: nat, u: nat, x: Column)
    requires Ascending(cs) && source < u <= |cs|
    requires forall i :: 0 <= i < source ==> cs[i].sortOrder <= x.sortOrder
    requires forall i :: source < i < u ==> cs[i].sortOrder < x.sortOrder
    requires forall i :: u <= i < |cs| ==> x.sortOrder <= cs[i].sortOrder
    ensures Sorted(cs[source := x]) == ShiftedRight(cs, source, u, x)
  {
    assert Ascending(ShiftedRight(cs, source, u, x));
    assert cs[source + 1..u] + cs[u..] == cs[source + 1..];
    FallsBehind(x, cs[source + 1..u], cs[u..]);
    SortAfter(cs[..source], [x] + cs[source + 1..]);
    assert cs[source := x] == cs[..source] + ([x] + cs[source + 1..]);
  }

  // Greater ones that stood before x end up behind it.
  lemma {:induction false} Overtakes(x: Column, greater: seq<Column>, rest: seq<Column>)
    requires Ascending(greater + rest)
    requires forall i :: 0 <= i < |greater| ==> x.sortOrder < greater[i].sortOrder
    requires forall i :: 0 <= i < |rest| ==> x.sortOrder <= rest[i].sortOrder
    ensures Sorted(greater + ([x] + rest)) == [x] + (greater + rest)
  {
    if greater == [] {
      assert greater + rest == rest;
      AscendingCons(x, rest);
      AscendingIsFixed([x] + rest);
      assert greater + ([x] + rest) == [x] + rest;
    } else {
      var tail := greater[1..] + rest;
      assert greater + rest == [greater[0]] + tail;
      AscendingTail(greater[0], tail);
      Overtakes(x, greater[1..], rest);
      assert greater + ([x] + rest) == [greater[0]] + (greater[1..] + ([x] + rest));
      TailOf(greater[0], greater[1..] + ([x] + rest));
      InsertSecond(greater[0], x, tail);
    }
  }

  lemma AscendingCons(c: Column, tail: seq<Column>)
    requires Ascending(tail) && forall i :: 0 <= i < |tail| ==> c.sortOrder <= tail[i].sortOrder
    ensures Ascending([c] + tail)
  {
    var whole := [c] + tail;
    forall i, j | 0 <= i < j < |whole| ensures whole[i].sortOrder <= whole[j].sortOrder {
      assert whole[j] == tail[j - 1] && (i > 0 ==> whole[i] == tail[i - 1]);
    }
  }

  lemma AscendingTail(c: Column, tail: seq<Column>)
    requires Ascending([c] + tail)
    ensures Ascending(tail) && forall i :: 0 <= i < |tail| ==> c.sortOrder <= tail[i].sortOrder
  {
    var whole := [c] + tail;
    forall i, j | 0 <= i < j < |tail| ensures tail[i].sortOrder <= tail[j].sortOrder {
      assert whole[i + 1] == tail[i] && whole[j + 1] == tail[j];
    }
    forall i | 0 <= i < |tail| ensures c.sortOrder <= tail[i].sortOrder {
      assert whole[0] == c && whole[i + 1] == tail[i];
    }
  }

  lemma InsertSecond(c: Column, x: Column, tail: seq<Column>)
    requires x.sortOrder < c.sortOrder && Ascending([c] + tail)
    ensures Insert(ByOrder, c, [x] + tail) == [x] + ([c] + tail)
  {
    TailOf(x, tail);
    AscendingTail(c, tail);
    assert Insert(ByOrder, c, tail) == [c] + tail;
  }

  // The list after x has moved to the left, to index u.
  function ShiftedLeft(cs: seq<Column>, source: nat, u: nat, x: Column): (r: seq<Column>)
    requires u <= source < |cs|
    ensures |r| == |cs|
    ensures forall i :: 0 <= i < |cs| ==>
              r[i] == if i < u then cs[i] else if i == u then x else if i <= source then cs[i - 1] else cs[i]
  {
    cs[..u] + ([x] + (cs[u..source] + cs[source + 1..]))
  }

  lemma ShiftedLeftAscends(cs: seq<Column>, source: nat, u: nat, x: Column)
    requires Ascending(cs) && u <= source < |cs|
    requires forall i :: 0 <= i < u ==> cs[i].sortOrder <= x.sortOrder
    requires forall i :: u <= i < |cs| && i != source ==> x.sortOrder <= cs[i].sortOrder
    ensures Ascending(ShiftedLeft(cs, source, u, x))
  {
  }

  lemma {:induction false} LandsLeft(cs: seq<Column>, source: nat, u: nat, x: Column)
    requires Ascending(cs) && u <= source < |cs|
    requires forall i :: 0 <= i < u ==> cs[i].sortOrder <= x.sortOrder
    requires forall i :: u <= i < source ==> x.sortOrder < cs[i].sortOrder
    requires forall i :: source < i < |cs| ==> x.sortOrder <= cs[i].sortOrder
    ensures Sorted(cs[source := x]) == ShiftedLeft(cs, source, u, x)
  {
    ShiftedLeftAscends(cs, source, u, x);
    Overtakes(x, cs[u..source], cs[source + 1..]);
    SortAfter(cs[..u], cs[u..source] + ([x] + cs[source + 1..]));
    assert cs[source := x] == cs[..u] + (cs[u..source] + ([x] + cs[source + 1..]));
  }

  // ----- the theorem -----

  /** The new order never leaves the closed interval between the two neighbours: it is their midpoint,
      rounded up, or 100 beyond the outermost column. */
  lemma PlacementBetween(cs: seq<Column>, source: nat, target: nat)
    requires Ascending(cs) && source < |cs| && target < |cs|
    ensures var order := Placement(cs, source, target);
            if source > target then
              order <= cs[target].sortOrder && (target > 0 ==> cs[target - 1].sortOrder <= order)
            else
              cs[target].sortOrder <= order && (target < |cs| - 1 ==> order <= cs[target + 1].sortOrder)
    ensures source > target ==> (Placement(cs, source, target) < cs[target].sortOrder <==> HasRoom(cs, source, target))
    ensures source < target ==> (Placement(cs, source, target) > cs[target].sortOrder <==> HasRoom(cs, source, target))
    ensures var order := Placement(cs, source, target);
            if source > target then
              (if target == 0 then cs[0].sortOrder - order == 100
               else 0 <= 2 * order - (cs[target - 1].sortOrder + cs[target].sortOrder) <= 1)
            else
              (if target == |cs| - 1 then order - cs[target].sortOrder == 100
               else 0 <= 2 * order - (cs[target].sortOrder + cs[target + 1].sortOrder) <= 1)
  {
  }

  lemma MovedIs(cs: seq<Column>, source: nat, target: nat, x: Column)
    requires source < |cs| && target < |cs|
    ensures target < source ==> Moved(cs, source, target, x) == ShiftedLeft(cs, source, target, x)
    ensures source < target ==> Moved(cs, source, target, x) == ShiftedRight(cs, source, target + 1, x)
  {
    var rest := cs[..source] + cs[source + 1..];
    if target < source {
      assert rest[..target] == cs[..target] && rest[target..] == cs[target..source] + cs[source + 1..];
    } else if source < target {
      assert rest[..target] == cs[..source] + cs[source + 1..target + 1] && rest[target..] == cs[target + 1..];
    }
  }

  lemma MovesLeft(cs: seq<Column>, source: nat, target: nat)
    requires Ascending(cs) && DistinctIds(cs) && target < source < |cs|
    ensures var x := cs[source].(sortOrder := Placement(cs, source, target));
            Sorted(cs[source := x]) == Moved(cs, source, target, x) <==> HasRoom(cs, source, target)
  {
    var x := cs[source].(sortOrder := Placement(cs, source, target));
    PlacementBetween(cs, source, target);
    if HasRoom(cs, source, target) {
      LandsLeft(cs, source, target, x);
      MovedIs(cs, source, target, x);
    } else {
      TiedStaysRight(cs, source, target, x);
    }
  }

  // Tied with the target, the column stays behind it.
  lemma TiedStaysRight(cs: seq<Column>, source: nat, target: nat, x: Column)
    requires Ascending(cs) && target < source < |cs| && x.sortOrder == cs[target].sortOrder
    ensures |Sorted(cs[source := x])| == |cs| && Sorted(cs[source := x])[target] == cs[target]
  {
    var u := target;
    while u < source && cs[u].sortOrder <= x.sortOrder
      invariant target <= u <= source && (u == target ==> cs[u].sortOrder <= x.sortOrder)
      invariant forall i :: 0 <= i < u ==> cs[i].sortOrder <= x.sortOrder
    {
      u := u + 1;
    }
    LandsLeft(cs, source, u, x);
  }

  lemma MovesRight(cs: seq<Column>, source: nat, target: nat)
    requires Ascending(cs) && DistinctIds(cs) && source < target < |cs|
    ensures var x := cs[source].(sortOrder := Placement(cs, source, target));
            Sorted(cs[source := x]) == Moved(cs, source, target, x) <==> HasRoom(cs, source, target)
  {
    var x := cs[source].(sortOrder := Placement(cs, source, target));
    PlacementBetween(cs, source, target);
    if HasRoom(cs, source, target) {
      LandsRight(cs, source, target + 1, x);
      MovedIs(cs, source, target, x);
    } else {
      TiedStaysLeft(cs, source, target, x);
      assert Moved(cs, source, target, x)[target] == x;
    }
  }

  // Tied with the target and the column behind it, the column stays before both.
  lemma TiedStaysLeft(cs: seq<Column>, source: nat, target: nat, x: Column)
    requires Ascending(cs) && source < target < |cs| - 1
    requires x.sortOrder == cs[target].sortOrder == cs[target + 1].sortOrder
    ensures |Sorted(cs[source := x])| == |cs| && Sorted(cs[source := x])[target] == cs[target]
  {
    var u := target;
    while u > source + 1 && cs[u - 1].sortOrder >= x.sortOrder
      invariant source < u <= target
      invariant forall i :: u <= i < |cs| ==> cs[i].sortOrder >= x.sortOrder
    {
      u := u - 1;
    }
    LandsRight(cs, source, u, x);
  }

  /** Dropping a column is moving it in the list of active columns - whatever inactive columns stand
      between - exactly when its new neighbours leave room. */
  lemma DropMoves(columns: seq<Column>, sourceId: string, targetId: string)
    requires DistinctIds(columns) && Ascending(columns) && sourceId != targetId
    requires IndexOf(Active(columns), sourceId) >= 0 && IndexOf(Active(columns), targetId) >= 0
    ensures var active := Active(columns);
            var s, t := IndexOf(active, sourceId), IndexOf(active, targetId);
            var x := active[s].(sortOrder := Placement(active, s, t));
            s != t && (Active(AfterDrop(columns, sourceId, targetId)) == Moved(active, s, t, x) <==>
                       HasRoom(active, s, t))
  {
    var active := Active(columns);
    var s, t := IndexOf(active, sourceId), IndexOf(active, targetId);
    var order := Placement(active, s, t);
    ActiveOfAscending(columns);
    ActiveOfDistinct(columns);
    AscendingIsFixed(active);
    ActiveOfSorted(Renumber(columns, sourceId, order));
    ActiveOfRenumbered(columns, sourceId, order);
    assert Renumber(active, sourceId, order) == active[s := active[s].(sortOrder := order)];
    if s > t {
      MovesLeft(active, s, t);
    } else {
      MovesRight(active, s, t);
    }
  }
}
