/** Pruning the duplicate statuses of a project against the server's own guard: issues are moved one
    request at a time, and a status that still has issues is not deleted. */
module StatusPruning {
  import opened Lists

  datatype Status = Status(id: string, name: string)

  datatype Column = Column(id: string, issues: seq<nat>)

  const ARCHIVED := "Archived"

  predicate DistinctIds(statuses: seq<Status>) {
    forall i, j :: 0 <= i < j < |statuses| ==> statuses[i].id != statuses[j].id
  }

  predicate HasId(statuses: seq<Status>, id: string) {
    exists i :: 0 <= i < |statuses| && statuses[i].id == id
  }

  // The first status of that name, or the length of the list.
  function FirstNamed(statuses: seq<Status>, name: string): (r: nat)
    ensures r <= |statuses|
    ensures r < |statuses| ==> statuses[r].name == name
    ensures forall i :: 0 <= i < r ==> statuses[i].name != name
  {
    if statuses == [] || statuses[0].name == name then 0 else FirstNamed(statuses[1..], name) + 1
  }

  function WithId(statuses: seq<Status>, id: string): (r: nat)
    ensures r <= |statuses|
    ensures r < |statuses| ==> statuses[r].id == id
    ensures forall i :: 0 <= i < r ==> statuses[i].id != id
  {
    if statuses == [] || statuses[0].id == id then 0 else WithId(statuses[1..], id) + 1
  }

  function NameOf(statuses: seq<Status>, id: string): Option<string> {
    var k := WithId(statuses, id);
    if k < |statuses| then Some(statuses[k].name) else None
  }

  function Without(statuses: seq<Status>, id: string): seq<Status> {
    if statuses == [] then []
    else (if statuses[0].id == id then [] else [statuses[0]]) + Without(statuses[1..], id)
  }

  // ----- the board the server shows -----

  function IssuesOn(statusOf: map<nat, string>, order: seq<nat>, id: string): seq<nat> {
    if order == [] then []
    else
      (if order[0] in statusOf && statusOf[order[0]] == id then [order[0]] else []) + IssuesOn(statusOf, order[1..], id)
  }

  // Archived columns are not shown, and neither are their issues.
  function ShownBoard(statuses: seq<Status>, statusOf: map<nat, string>, order: seq<nat>): seq<Column> {
    if statuses == [] then []
    else
      (if statuses[0].name == ARCHIVED then [] else [Column(statuses[0].id, IssuesOn(statusOf, order, statuses[0].id))])
      + ShownBoard(statuses[1..], statusOf, order)
  }

  function Listed(board: seq<Column>, id: string): seq<nat> {
    if board == [] then [] else if board[0].id == id then board[0].issues else Listed(board[1..], id)
  }

  // ----- the server -----

  class Project {
    var statuses: seq<Status>
    var statusOf: map<nat, string>

    // No issue points at a status that does not exist.
    ghost predicate Valid()
      reads this
    {
      DistinctIds(statuses) && forall x :: x in statusOf ==> HasId(statuses, statusOf[x])
    }

    constructor (statuses: seq<Status>, statusOf: map<nat, string>)
      requires DistinctIds(statuses) && forall x :: x in statusOf ==> HasId(statuses, statusOf[x])
      ensures Valid() && this.statuses == statuses && this.statusOf == statusOf
    {
      this.statuses, this.statusOf := statuses, statusOf;
    }

    method PatchIssue(issue: nat, statusId: string, accepted: bool)
      requires Valid()
      modifies this`statusOf
      ensures Valid()
      ensures statusOf == if accepted && issue in old(statusOf) && HasId(statuses, statusId)
                          then old(statusOf)[issue := statusId] else old(statusOf)
    {
      if accepted && issue in statusOf && HasId(statuses, statusId) {
        statusOf := statusOf[issue := statusId];
      }
    }

    method DeleteStatus(statusId: string) returns (code: nat)
      requires Valid()
      modifies this`statuses
      ensures Valid()
      ensures code == if !HasId(old(statuses), statusId) then 404 else if statusId in statusOf.Values then 409 else 200
      ensures statuses == if code == 200 then Without(old(statuses), statusId) else old(statuses)
    {
      if !HasId(statuses, statusId) {
        return 404;
      }
      if statusId in statusOf.Values {
        return 409;
      }
      WithoutKeeps(statuses, statusId);
      statuses := Without(statuses, statusId);
      return 200;
    }

    // The first i statuses of the plan have been dealt with.
    ghost predicate DealtWith(p: Plan, i: nat)
      reads this
    {
      statuses == p.Surviving(p.statuses, i) && statusOf == p.After(i)
    }

    // refused are the issues whose change of status the server turns down; it lists issues in order.
    method PruneDuplicateStatuses(order: seq<nat>, refused: set<nat>)
      requires Valid() && forall x :: x in statusOf ==> x in order
      modifies this
      ensures Valid() && DealtWith(Plan(old(statuses), old(statusOf), order, refused), |old(statuses)|)
    {
      ghost var p := Plan(statuses, statusOf, order, refused);
      var fetched, board := statuses, ShownBoard(statuses, statusOf, order);
      var seen: set<string> := {};
      p.NothingDone();
      for i := 0 to |fetched|
        invariant Valid() && DealtWith(p, i)
        invariant SeenUpTo(seen, fetched, i)
      {
        seen := VisitStatus(fetched, board, seen, i, refused, p);
      }
    }

    // One turn of the loop: the first status of a name is kept, any other is a duplicate.
    method VisitStatus(fetched: seq<Status>, board: seq<Column>, before: set<string>, i: nat, refused: set<nat>,
                       ghost p: Plan)
      returns (seen: set<string>)
      requires Valid() && p.WellFormed() && DealtWith(p, i) && i < |fetched| && SeenUpTo(before, fetched, i)
      requires fetched == p.statuses && board == p.Board() && refused == p.refused
      modifies this
      ensures Valid() && DealtWith(p, i + 1) && SeenUpTo(seen, fetched, i + 1)
    {
      var status := fetched[i];
      SeenGrows(before, fetched, i);
      seen := before;
      if status.name !in seen {
        seen := seen + {status.name};
        p.FirstIsKept(i);
        return;
      }
      var canonical := fetched[FirstNamed(fetched, status.name)];
      var code := RemoveDuplicate(status.id, Listed(board, status.id), canonical.id, refused, p, i);
    }

    method RemoveDuplicate(statusId: string, column: seq<nat>, target: string, refused: set<nat>, ghost p: Plan,
                           ghost i: nat)
      returns (code: nat)
      requires Valid() && p.WellFormed() && i < |p.statuses| && p.Duplicate(i) && DealtWith(p, i)
      requires statusId == p.statuses[i].id && column == Listed(p.Board(), statusId)
      requires target == p.Canonical(i) && refused == p.refused
      modifies this
      ensures Valid() && DealtWith(p, i + 1)
      ensures code == if p.Stuck(statusId) then 409 else 200
    {
      MoveIssues(column, target, refused, p, i);
      p.DuplicateGone(i);
      code := DeleteStatus(statusId);
    }

    method MoveIssues(column: seq<nat>, target: string, refused: set<nat>, ghost p: Plan, ghost i: nat)
      requires Valid() && p.WellFormed() && i < |p.statuses| && p.Duplicate(i) && DealtWith(p, i)
      requires column == Listed(p.Board(), p.statuses[i].id) && target == p.Canonical(i) && refused == p.refused
      modifies this`statusOf
      ensures Valid() && statusOf == p.After(i + 1)
    {
      p.CanonicalStays(i);
      for j := 0 to |column|
        invariant Valid() && statusOf == p.Midway(i, column[..j])
      {
        p.OneMoreMoved(i, column, j);
        PatchIssue(column[j], target, column[j] !in refused);
      }
      assert column[..|column|] == column;
      p.ColumnDone(i);
    }
  }

  ghost predicate SeenUpTo(seen: set<string>, statuses: seq<Status>, i: nat) {
    forall n :: n in seen <==> FirstNamed(statuses, n) < i
  }

  lemma SeenGrows(seen: set<string>, statuses: seq<Status>, i: nat)
    requires i < |statuses| && SeenUpTo(seen, statuses, i)
    ensures SeenUpTo(seen + {statuses[i].name}, statuses, i + 1)
    ensures statuses[i].name in seen <==> FirstNamed(statuses, statuses[i].name) < i
    ensures statuses[i].name in seen ==> seen + {statuses[i].name} == seen
  {
    forall n ensures n in seen + {statuses[i].name} <==> FirstNamed(statuses, n) < i + 1 {
      assert n == statuses[i].name ==> FirstNamed(statuses, n) <= i;
      assert FirstNamed(statuses, n) == i ==> n == statuses[i].name;
    }
  }

  lemma {:induction false} WithoutKeeps(statuses: seq<Status>, id: string)
    requires DistinctIds(statuses)
    ensures DistinctIds(Without(statuses, id))
    ensures forall s :: s in Without(statuses, id) <==> s in statuses && s.id != id
    ensures forall x :: HasId(statuses, x) && x != id ==> HasId(Without(statuses, id), x)
  {
    WithoutHas(statuses, id);
    WithoutDistinct(statuses, id);
    forall x | HasId(statuses, x) && x != id ensures HasId(Without(statuses, id), x) {
      var i :| 0 <= i < |statuses| && statuses[i].id == x;
      assert statuses[i] in Without(statuses, id);
    }
  }

  lemma {:induction false} WithoutHas(statuses: seq<Status>, id: string)
    ensures forall s :: s in Without(statuses, id) <==> s in statuses && s.id != id
  {
    if statuses != [] {
      WithoutHas(statuses[1..], id);
    }
  }

  lemma {:induction false} WithoutDistinct(statuses: seq<Status>, id: string)
    requires DistinctIds(statuses)
    ensures DistinctIds(Without(statuses, id))
  {
    if statuses != [] {
      WithoutDistinct(statuses[1..], id);
      WithoutHas(statuses[1..], id);
      assert forall s :: s in statuses[1..] ==> s.id != statuses[0].id;
    }
  }

  lemma IdAt(statuses: seq<Status>, i: nat)
    requires DistinctIds(statuses) && i < |statuses|
    ensures WithId(statuses, statuses[i].id) == i
  {
  }

  lemma ListedCons(c: Column, board: seq<Column>, id: string)
    ensures Listed([c] + board, id) == if c.id == id then c.issues else Listed(board, id)
  {
    assert ([c] + board)[1..] == board;
  }

  lemma {:induction false} ListedHas(statuses: seq<Status>, statusOf: map<nat, string>, order: seq<nat>, i: nat)
    requires DistinctIds(statuses) && i < |statuses|
    ensures Listed(ShownBoard(statuses, statusOf, order), statuses[i].id)
         == if statuses[i].name == "Archived" then [] else IssuesOn(statusOf, order, statuses[i].id)
  {
    var c, rest := Column(statuses[0].id, IssuesOn(statusOf, order, statuses[0].id)),
        ShownBoard(statuses[1..], statusOf, order);
    ListedCons(c, rest, statuses[i].id);
    assert [] + rest == rest;
    if i > 0 {
      ListedHas(statuses[1..], statusOf, order, i - 1);
    } else {
      ListedNot(statuses[1..], statusOf, order, statuses[0].id);
    }
  }

  lemma {:induction false} ListedNot(statuses: seq<Status>, statusOf: map<nat, string>, order: seq<nat>, id: string)
    requires forall i :: 0 <= i < |statuses| ==> statuses[i].id != id
    ensures Listed(ShownBoard(statuses, statusOf, order), id) == []
  {
    if statuses != [] {
      var c, rest := Column(statuses[0].id, IssuesOn(statusOf, order, statuses[0].id)),
          ShownBoard(statuses[1..], statusOf, order);
      ListedNot(statuses[1..], statusOf, order, id);
      ListedCons(c, rest, id);
      assert [] + rest == rest;
    }
  }

  lemma {:induction false} IssuesOnHas(statusOf: map<nat, string>, order: seq<nat>, id: string)
    ensures forall x :: x in IssuesOn(statusOf, order, id) <==> x in order && x in statusOf && statusOf[x] == id
  {
    if order != [] {
      IssuesOnHas(statusOf, order[1..], id);
    }
  }

  // ----- what a run does to the project it found -----

  datatype Plan = Plan(statuses: seq<Status>, statusOf: map<nat, string>, order: seq<nat>, refused: set<nat>) {

    ghost predicate WellFormed() {
      && DistinctIds(statuses)
      && forall x :: x in statusOf ==> HasId(statuses, statusOf[x]) && x in order
    }

    function Board(): seq<Column> {
      ShownBoard(statuses, statusOf, order)
    }

    predicate Duplicate(i: nat)
      requires i < |statuses|
    {
      FirstNamed(statuses, statuses[i].name) < i
    }

    function Canonical(i: nat): string
      requires i < |statuses|
    {
      statuses[FirstNamed(statuses, statuses[i].name)].id
    }

    function Home(x: nat): (k: nat)
      requires x in statusOf
      ensures k <= |statuses|
    {
      WithId(statuses, statusOf[x])
    }

    predicate Moves(x: nat)
      requires x in statusOf
    {
      var k := Home(x);
      k < |statuses| && Duplicate(k) && x in Listed(Board(), statusOf[x]) && x !in refused
    }

    // Where the issues are when the first i statuses, and the issues of done on status i, are dealt with.
    function Midway(i: nat, done: seq<nat>): map<nat, string> {
      map x | x in statusOf :: Place(x, i, done)
    }

    function Place(x: nat, i: nat, done: seq<nat>): string
      requires x in statusOf
    {
      if Moves(x) && (Home(x) < i || (Home(x) == i && x in done)) then Canonical(Home(x)) else statusOf[x]
    }

    function After(i: nat): map<nat, string> {
      Midway(i, [])
    }

    // An issue of that status stays where it is.
    ghost predicate Stuck(id: string) {
      exists x :: x in statusOf && statusOf[x] == id && !Moves(x)
    }

    ghost predicate Kept(s: Status, i: nat) {
      var k := WithId(statuses, s.id);
      k < i && k < |statuses| && Duplicate(k) ==> Stuck(s.id)
    }

    ghost function Surviving(list: seq<Status>, i: nat): seq<Status> {
      if list == [] then [] else (if Kept(list[0], i) then [list[0]] else []) + Surviving(list[1..], i)
    }

    lemma {:induction false} SurvivingHas(list: seq<Status>, i: nat)
      ensures forall s :: s in Surviving(list, i) <==> s in list && Kept(s, i)
    {
      if list != [] {
        SurvivingHas(list[1..], i);
      }
    }

    lemma {:induction false} SurvivingSame(list: seq<Status>, i: nat, j: nat)
      requires forall s :: s in list ==> (Kept(s, i) <==> Kept(s, j))
      ensures Surviving(list, i) == Surviving(list, j)
    {
      if list != [] {
        SurvivingSame(list[1..], i, j);
      }
    }

    lemma {:induction false} SurvivingAll(list: seq<Status>, i: nat)
      requires forall s :: s in list ==> Kept(s, i)
      ensures Surviving(list, i) == list
    {
      if list != [] {
        SurvivingAll(list[1..], i);
      }
    }

    lemma {:induction false} SurvivingLess(list: seq<Status>, i: nat, j: nat, id: string)
      requires forall s :: s in list ==> (Kept(s, j) <==> Kept(s, i) && s.id != id)
      ensures Surviving(list, j) == Without(Surviving(list, i), id)
    {
      if list != [] {
        SurvivingLess(list[1..], i, j, id);
        if Kept(list[0], i) {
          assert Surviving(list, i)[0] == list[0] && Surviving(list, i)[1..] == Surviving(list[1..], i);
        } else {
          assert Surviving(list, i) == Surviving(list[1..], i);
        }
      }
    }

    lemma NothingDone()
      ensures Surviving(statuses, 0) == statuses && After(0) == statusOf
    {
      SurvivingAll(statuses, 0);
    }

    lemma FirstIsKept(i: nat)
      requires i < |statuses| && !Duplicate(i)
      ensures Surviving(statuses, i + 1) == Surviving(statuses, i) && After(i + 1) == After(i)
    {
      forall s | s in statuses ensures Kept(s, i) <==> Kept(s, i + 1) {
        assert WithId(statuses, s.id) == i ==> !Duplicate(i);
      }
      SurvivingSame(statuses, i, i + 1);
      forall x | x in statusOf ensures Place(x, i + 1, []) == Place(x, i, []) {
        assert Home(x) == i ==> !Moves(x);
      }
    }

    lemma ColumnIs(i: nat)
      requires WellFormed() && i < |statuses|
      ensures forall x :: x in Listed(Board(), statuses[i].id) ==>
                x in statusOf && statusOf[x] == statuses[i].id && Home(x) == i
    {
      ListedHas(statuses, statusOf, order, i);
      IssuesOnHas(statusOf, order, statuses[i].id);
      IdAt(statuses, i);
    }

    lemma CanonicalStays(i: nat)
      requires WellFormed() && i < |statuses|
      ensures HasId(Surviving(statuses, i), Canonical(i))
    {
      var f := FirstNamed(statuses, statuses[i].name);
      IdAt(statuses, f);
      SurvivingHas(statuses, i);
      assert statuses[f] in Surviving(statuses, i);
    }

    lemma OneMoreMoved(i: nat, column: seq<nat>, j: nat)
      requires WellFormed() && i < |statuses| && Duplicate(i) && j < |column|
          && column == Listed(Board(), statuses[i].id)
      ensures column[j] in statusOf
      ensures Midway(i, column[..j + 1])
           == if column[j] in refused then Midway(i, column[..j]) else Midway(i, column[..j])[column[j] := Canonical(i)]
    {
      ColumnIs(i);
      forall x | x in statusOf
        ensures Place(x, i, column[..j + 1])
             == if x == column[j] && x !in refused then Canonical(i) else Place(x, i, column[..j])
      {
        PlaceStep(x, i, column, j);
      }
    }

    lemma PlaceStep(x: nat, i: nat, column: seq<nat>, j: nat)
      requires i < |statuses| && Duplicate(i) && j < |column| && x in statusOf
      requires x == column[j] ==> Home(x) == i && x in Listed(Board(), statusOf[x])
      ensures Place(x, i, column[..j + 1])
           == if x == column[j] && x !in refused then Canonical(i) else Place(x, i, column[..j])
    {
      assert column[..j + 1] == column[..j] + [column[j]];
      assert x in column[..j + 1] <==> x in column[..j] || x == column[j];
    }

    lemma ColumnDone(i: nat)
      requires WellFormed() && i < |statuses|
      ensures Midway(i, Listed(Board(), statuses[i].id)) == After(i + 1)
    {
      ColumnIs(i);
      var column := Listed(Board(), statuses[i].id);
      forall x | x in statusOf ensures Place(x, i, column) == Place(x, i + 1, []) {
      }
    }

    // What is left on a duplicate is what could not be moved.
    lemma StillUsed(i: nat)
      requires WellFormed() && i < |statuses| && Duplicate(i)
      ensures statuses[i].id in After(i + 1).Values <==> Stuck(statuses[i].id)
    {
      IdAt(statuses, i);
      if Stuck(statuses[i].id) {
        var x :| x in statusOf && statusOf[x] == statuses[i].id && !Moves(x);
        assert After(i + 1)[x] == statuses[i].id;
      }
      if statuses[i].id in After(i + 1).Values {
        var x :| x in After(i + 1) && After(i + 1)[x] == statuses[i].id;
        if Moves(x) && Home(x) < i + 1 {
          assert false;
        }
      }
    }

    lemma KeptStep(i: nat, s: Status)
      requires WellFormed() && i < |statuses| && Duplicate(i)
      ensures Kept(s, i + 1) <==> Kept(s, i) && (s.id == statuses[i].id ==> Stuck(s.id))
    {
      IdAt(statuses, i);
    }

    lemma SurvivingNext(i: nat)
      requires WellFormed() && i < |statuses| && Duplicate(i)
      ensures Surviving(statuses, i + 1)
           == if Stuck(statuses[i].id) then Surviving(statuses, i) else Without(Surviving(statuses, i), statuses[i].id)
    {
      if Stuck(statuses[i].id) {
        StuckStays(i);
      } else {
        FreeGoes(i);
      }
    }

    lemma StuckStays(i: nat)
      requires WellFormed() && i < |statuses| && Duplicate(i) && Stuck(statuses[i].id)
      ensures Surviving(statuses, i + 1) == Surviving(statuses, i)
    {
      forall s | s in statuses ensures Kept(s, i) <==> Kept(s, i + 1) {
        KeptStep(i, s);
      }
      SurvivingSame(statuses, i + 1, i);
    }

    lemma FreeGoes(i: nat)
      requires WellFormed() && i < |statuses| && Duplicate(i) && !Stuck(statuses[i].id)
      ensures Surviving(statuses, i + 1) == Without(Surviving(statuses, i), statuses[i].id)
    {
      forall s | s in statuses ensures Kept(s, i + 1) <==> Kept(s, i) && s.id != statuses[i].id {
        KeptStep(i, s);
      }
      SurvivingLess(statuses, i, i + 1, statuses[i].id);
    }

    lemma DuplicateGone(i: nat)
      requires WellFormed() && i < |statuses| && Duplicate(i)
      ensures HasId(Surviving(statuses, i), statuses[i].id)
      ensures statuses[i].id in After(i + 1).Values <==> Stuck(statuses[i].id)
      ensures Surviving(statuses, i + 1)
           == if Stuck(statuses[i].id) then Surviving(statuses, i) else Without(Surviving(statuses, i), statuses[i].id)
    {
      StillUsed(i);
      SurvivingNext(i);
      IdAt(statuses, i);
      SurvivingHas(statuses, i);
      assert statuses[i] in Surviving(statuses, i);
    }

    // ----- what the whole run achieves -----

    ghost function Final(): seq<Status> {
      Surviving(statuses, |statuses|)
    }

    function FinalPlaces(): map<nat, string> {
      After(|statuses|)
    }

    predicate IsFirst(s: Status) {
      FirstNamed(statuses, s.name) < |statuses| && statuses[FirstNamed(statuses, s.name)] == s
    }

    /** A status is gone exactly when it is a duplicate and every issue on it could be moved; an issue
        could not be moved exactly when its column is not shown or the change was turned down. */
    lemma StaysExactly(i: nat)
      requires WellFormed() && i < |statuses|
      ensures statuses[i] in Final() <==>
                IsFirst(statuses[i])
                || exists x :: x in statusOf && statusOf[x] == statuses[i].id
                    && (statuses[i].name == "Archived" || x in refused)
    {
      SurvivingHas(statuses, |statuses|);
      IdAt(statuses, i);
      FirstIsIndex(i);
      if Duplicate(i) {
        MovesExactly(i);
        assert Stuck(statuses[i].id) <==>
                 exists x :: x in statusOf && statusOf[x] == statuses[i].id
                     && (statuses[i].name == ARCHIVED || x in refused);
      }
    }

    lemma FirstIsIndex(i: nat)
      requires WellFormed() && i < |statuses|
      ensures IsFirst(statuses[i]) <==> !Duplicate(i)
    {
    }

    lemma MovesExactly(i: nat)
      requires WellFormed() && i < |statuses| && Duplicate(i)
      ensures forall x :: x in statusOf && statusOf[x] == statuses[i].id ==>
                (Moves(x) <==> !(statuses[i].name == ARCHIVED || x in refused))
    {
      IdAt(statuses, i);
      ListedHas(statuses, statusOf, order, i);
      IssuesOnHas(statusOf, order, statuses[i].id);
    }

    /** No issue is lost, and each keeps the name of its status. */
    lemma NamesKept(x: nat)
      requires WellFormed() && x in statusOf
      ensures x in FinalPlaces()
      ensures NameOf(Final(), FinalPlaces()[x]).Some?
          && NameOf(Final(), FinalPlaces()[x]) == NameOf(statuses, statusOf[x])
    {
      var k := Home(x);
      assert k < |statuses|;
      var target := if Moves(x) then FirstNamed(statuses, statuses[k].name) else k;
      assert FinalPlaces()[x] == statuses[target].id;
      IdAt(statuses, target);
      assert Kept(statuses[target], |statuses|);
      SurvivingHas(statuses, |statuses|);
      SurvivingDistinct(statuses, |statuses|);
      NamedByMember(Final(), statuses[target]);
    }

    lemma NamedByMember(list: seq<Status>, s: Status)
      requires s in list && DistinctIds(list)
      ensures NameOf(list, s.id) == Some(s.name)
    {
      var i :| 0 <= i < |list| && list[i] == s;
      IdAt(list, i);
    }

    lemma {:induction false} SurvivingDistinct(list: seq<Status>, i: nat)
      requires DistinctIds(list)
      ensures DistinctIds(Surviving(list, i))
    {
      if list != [] {
        SurvivingDistinct(list[1..], i);
        SurvivingHas(list[1..], i);
        assert forall s :: s in list[1..] ==> s.id != list[0].id;
      }
    }

    // Every issue on a duplicate can be moved.
    ghost predicate AllMovable() {
      forall i, x :: 0 <= i < |statuses| && Duplicate(i) && x in statusOf && statusOf[x] == statuses[i].id ==>
        statuses[i].name != ARCHIVED && x !in refused
    }

    lemma MovableLeaves(i: nat)
      requires WellFormed() && AllMovable() && i < |statuses| && Duplicate(i)
      ensures statuses[i] !in Final()
    {
      StaysExactly(i);
      FirstIsIndex(i);
    }

    lemma OnlyFirstsLeft(s: Status)
      requires WellFormed() && AllMovable() && s in Final()
      ensures IsFirst(s)
    {
      SurvivingHas(statuses, |statuses|);
      var i :| 0 <= i < |statuses| && statuses[i] == s;
      FirstIsIndex(i);
      if Duplicate(i) {
        MovableLeaves(i);
      }
    }

    /** Afterwards the names are unique exactly when every issue on a duplicate could be moved. */
    lemma UniqueExactly()
      requires WellFormed()
      ensures DistinctNames(Final()) <==> AllMovable()
    {
      if AllMovable() {
        SurvivingDistinct(statuses, |statuses|);
        forall i, j | 0 <= i < j < |Final()| ensures Final()[i].name != Final()[j].name {
          OnlyFirstsLeft(Final()[i]);
          OnlyFirstsLeft(Final()[j]);
        }
      } else {
        var i, x :| 0 <= i < |statuses| && Duplicate(i) && x in statusOf && statusOf[x] == statuses[i].id
          && (statuses[i].name == ARCHIVED || x in refused);
        NameLeftTwice(i, x);
      }
    }

    lemma NameLeftTwice(i: nat, x: nat)
      requires WellFormed() && i < |statuses| && Duplicate(i) && x in statusOf && statusOf[x] == statuses[i].id
      requires statuses[i].name == ARCHIVED || x in refused
      ensures !DistinctNames(Final())
    {
      var f := FirstNamed(statuses, statuses[i].name);
      StaysExactly(i);
      FirstIsIndex(f);
      StaysExactly(f);
      SameNameTwice(Final(), statuses[f], statuses[i]);
    }

    // ----- running again -----

    // The board lists the issue on that duplicate, and its change of status is turned down.
    predicate TurnedDown(i: nat, x: nat)
      requires i < |statuses|
    {
      && Duplicate(i) && statuses[i].name != ARCHIVED
      && x in statusOf && statusOf[x] == statuses[i].id && x in refused
    }

    ghost predicate RefusedAgain(refused': set<nat>) {
      forall i, x :: 0 <= i < |statuses| && TurnedDown(i, x) ==> x in refused'
    }

    /** A second run changes nothing exactly when every change that was turned down is turned down
        again: in particular when there was none. */
    lemma SecondRunIdle(refused': set<nat>)
      requires WellFormed()
      ensures var again := Plan(Final(), FinalPlaces(), order, refused');
              again.Final() == Final() && again.FinalPlaces() == FinalPlaces() <==> RefusedAgain(refused')
    {
      if RefusedAgain(refused') {
        NothingMovesAgain(refused');
      } else {
        var i, x :| 0 <= i < |statuses| && TurnedDown(i, x) && x !in refused';
        MovesAgain(refused', i, x);
      }
    }

    lemma NothingMovesAgain(refused': set<nat>)
      requires WellFormed() && RefusedAgain(refused')
      ensures var again := Plan(Final(), FinalPlaces(), order, refused');
              again.Final() == Final() && again.FinalPlaces() == FinalPlaces()
    {
      var again := Plan(Final(), FinalPlaces(), order, refused');
      forall x | x in again.statusOf ensures !again.Moves(x) {
        StaysAgain(refused', x);
      }
      forall s | s in Final() ensures again.Kept(s, |Final()|) {
        KeptAgain(refused', s);
      }
      again.SurvivingAll(Final(), |Final()|);
    }

    lemma AgainWellFormed(refused': set<nat>)
      requires WellFormed()
      ensures Plan(Final(), FinalPlaces(), order, refused').WellFormed()
    {
      SurvivingDistinct(statuses, |statuses|);
      forall x | x in FinalPlaces() ensures HasId(Final(), FinalPlaces()[x]) {
        NamesKept(x);
        assert WithId(Final(), FinalPlaces()[x]) < |Final()|;
      }
    }

    lemma FirstNamedCons(s: Status, list: seq<Status>, name: string)
      ensures FirstNamed([s] + list, name) == if s.name == name then 0 else FirstNamed(list, name) + 1
    {
      assert ([s] + list)[1..] == list;
    }

    // The first status of a name that is kept is the first of that name among those kept.
    lemma {:induction false} SurvivingFirst(list: seq<Status>, i: nat, name: string)
      requires FirstNamed(list, name) < |list| && Kept(list[FirstNamed(list, name)], i)
      ensures var kept := Surviving(list, i);
              FirstNamed(kept, name) < |kept| && kept[FirstNamed(kept, name)] == list[FirstNamed(list, name)]
    {
      var rest := Surviving(list[1..], i);
      if list[0].name != name {
        SurvivingFirst(list[1..], i, name);
      }
      FirstNamedCons(list[0], rest, name);
      assert [] + rest == rest;
    }

    // A status is a duplicate the second time exactly when it was one the first time.
    lemma DuplicateAgain(refused': set<nat>, k: nat, i: nat)
      requires WellFormed() && k < |Final()| && i < |statuses| && Final()[k] == statuses[i]
      ensures Plan(Final(), FinalPlaces(), order, refused').Duplicate(k) <==> Duplicate(i)
    {
      var name := statuses[i].name;
      IdAt(statuses, FirstNamed(statuses, name));
      SurvivingFirst(statuses, |statuses|, name);
      SurvivingDistinct(statuses, |statuses|);
      FirstOrLater(statuses, i);
      FirstOrLater(Final(), k);
    }

    lemma FirstOrLater(list: seq<Status>, i: nat)
      requires DistinctIds(list) && i < |list|
      ensures var f := FirstNamed(list, list[i].name); f <= i && (f < i <==> list[f] != list[i])
    {
    }

    // Where the issue is in the end.
    function EndsOn(x: nat): string
      requires x in statusOf
    {
      Place(x, |statuses|, [])
    }

    // What could not be moved the first time stays where it is, on a status that stays.
    lemma LeftBehind(i: nat, x: nat)
      requires WellFormed() && i < |statuses| && Duplicate(i)
      requires x in statusOf && statusOf[x] == statuses[i].id && !Moves(x)
      ensures statuses[i] in Final() && EndsOn(x) == statuses[i].id
    {
      SurvivingHas(statuses, |statuses|);
    }

    lemma OriginOf(x: nat) returns (k: nat, i: nat)
      requires WellFormed() && x in statusOf
      ensures k < |Final()| && i < |statuses| && Final()[k] == statuses[i] && EndsOn(x) == statuses[i].id
    {
      NamesKept(x);
      k := WithId(Final(), EndsOn(x));
      SurvivingHas(statuses, |statuses|);
      assert Final()[k] in statuses;
      i :| 0 <= i < |statuses| && statuses[i] == Final()[k];
    }

    // An issue that ends on a duplicate was there from the start.
    lemma NeverMoved(i: nat, x: nat)
      requires WellFormed() && i < |statuses| && Duplicate(i) && x in statusOf && EndsOn(x) == statuses[i].id
      ensures statusOf[x] == statuses[i].id && !Moves(x)
    {
      IdAt(statuses, i);
      if Moves(x) {
        var f := FirstNamed(statuses, statuses[Home(x)].name);
        IdAt(statuses, f);
        assert false;
      }
    }

    lemma MovableExactly(k: nat, x: nat)
      requires WellFormed() && k < |statuses| && x in statusOf && statusOf[x] == statuses[k].id
      ensures Moves(x) <==> Duplicate(k) && statuses[k].name != ARCHIVED && x !in refused
    {
      IdAt(statuses, k);
      if Duplicate(k) {
        MovesExactly(k);
      }
    }

    lemma TurnedDownAgain(refused': set<nat>, i: nat, x: nat)
      requires WellFormed() && RefusedAgain(refused') && i < |statuses|
      requires x in statusOf && EndsOn(x) == statuses[i].id
      ensures Duplicate(i) && statuses[i].name != ARCHIVED ==> x in refused'
    {
      if Duplicate(i) {
        NeverMoved(i, x);
        StuckExactly(i, x);
      }
    }

    lemma StuckExactly(i: nat, x: nat)
      requires WellFormed() && i < |statuses| && Duplicate(i) && x in statusOf && statusOf[x] == statuses[i].id
      ensures Moves(x) <==> statuses[i].name != ARCHIVED && !TurnedDown(i, x)
    {
      MovableExactly(i, x);
    }

    lemma StaysAgain(refused': set<nat>, x: nat)
      requires WellFormed() && RefusedAgain(refused') && x in statusOf
      ensures !Plan(Final(), FinalPlaces(), order, refused').Moves(x)
    {
      var k, i := OriginOf(x);
      TurnedDownAgain(refused', i, x);
      AgainWellFormed(refused');
      DuplicateAgain(refused', k, i);
      StaysOn(Plan(Final(), FinalPlaces(), order, refused'), k, x);
    }

    lemma StaysOn(again: Plan, k: nat, x: nat)
      requires again.WellFormed() && k < |again.statuses|
      requires x in again.statusOf && again.statusOf[x] == again.statuses[k].id
      requires again.Duplicate(k) && again.statuses[k].name != ARCHIVED ==> x in again.refused
      ensures !again.Moves(x)
    {
      again.MovableExactly(k, x);
    }

    lemma KeptAgain(refused': set<nat>, s: Status)
      requires WellFormed() && RefusedAgain(refused') && s in Final()
      ensures Plan(Final(), FinalPlaces(), order, refused').Kept(s, |Final()|)
    {
      var again := Plan(Final(), FinalPlaces(), order, refused');
      SurvivingHas(statuses, |statuses|);
      SurvivingDistinct(statuses, |statuses|);
      var k :| 0 <= k < |Final()| && Final()[k] == s;
      var i :| 0 <= i < |statuses| && statuses[i] == s;
      IdAt(Final(), k);
      IdAt(statuses, i);
      DuplicateAgain(refused', k, i);
      if Duplicate(i) {
        var x :| x in statusOf && statusOf[x] == s.id && !Moves(x);
        LeftBehind(i, x);
        StaysAgain(refused', x);
      }
    }

    // An issue that was turned down, and is not again, moves the second time.
    lemma MovesAgain(refused': set<nat>, i: nat, x: nat)
      requires WellFormed() && i < |statuses| && TurnedDown(i, x) && x !in refused'
      ensures Plan(Final(), FinalPlaces(), order, refused').FinalPlaces() != FinalPlaces()
    {
      var again := Plan(Final(), FinalPlaces(), order, refused');
      MovableExactly(i, x);
      LeftBehind(i, x);
      AgainWellFormed(refused');
      var k := WithId(Final(), statuses[i].id);
      var j :| 0 <= j < |Final()| && Final()[j] == statuses[i];
      IdAt(Final(), j);
      DuplicateAgain(refused', k, i);
      again.MovableExactly(k, x);
      CanonicalDiffers(again, k);
      assert again.FinalPlaces()[x] == again.Canonical(k);
    }

    lemma CanonicalDiffers(again: Plan, k: nat)
      requires again.WellFormed() && k < |again.statuses| && again.Duplicate(k)
      ensures again.Canonical(k) != again.statuses[k].id
    {
    }
  }

  ghost predicate DistinctNames(list: seq<Status>) {
    forall i, j :: 0 <= i < j < |list| ==> list[i].name != list[j].name
  }

  lemma SameNameTwice(list: seq<Status>, s: Status, t: Status)
    requires s in list && t in list && s != t && s.name == t.name
    ensures !DistinctNames(list)
  {
    var i :| 0 <= i < |list| && list[i] == s;
    var j :| 0 <= j < |list| && list[j] == t;
    assert list[if i < j then i else j].name == list[if i < j then j else i].name;
  }
}
