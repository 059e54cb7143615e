/** The artifact viewer: finding the approval bookkeeping of a document, and splitting the document
    into markdown and bookkeeping segments without losing a line of it. */
module Artifact {
  import opened Lists
  import opened Text

  datatype Heading = Heading(line: nat, text: string)

  datatype Item = Item(caption: string, checked: bool)

  datatype Block = Block(
    startLine: nat, endLine: nat, heading: string, items: seq<Item>, answered: bool, feedbackHeading: Option<string>)

  // Headings come in document order and inside the document.
  predicate ValidOutline(lines: seq<string>, headings: seq<Heading>) {
    && (forall i :: 0 <= i < |headings| ==> headings[i].line < |lines|)
    && forall i, j :: 0 <= i < j < |headings| ==> headings[i].line < headings[j].line
  }

  // ----- recognising lines -----

  predicate IsLineTerminator(c: char) {
    c in {'\n', '\r', '\U{2028}', '\U{2029}'}
  }

  // A bullet, blanks, a box, blanks, and a label on one line.
  function ParseTask(line: string): Option<Item> {
    var t := TrimLeft(line);
    if t == [] || t[0] !in {'-', '*', '+'} || |t| < 2 || !IsSpace(t[1]) then None
    else
      var box := TrimLeft(t[1..]);
      if |box| < 4 || box[0] != '[' || box[1] !in {' ', 'x', 'X'} || box[2] != ']' || !IsSpace(box[3]) then None
      else
        var caption := Trim(box[3..]);
        if caption == [] || exists i :: 0 <= i < |caption| && IsLineTerminator(caption[i]) then None
        else Some(Item(caption, box[1] != ' '))
  }

  predicate IsWordChar(c: char) {
    'a' <= c <= 'z' || 'A' <= c <= 'Z' || '0' <= c <= '9' || c == '_'
  }

  function Lower(c: char): char {
    if 'A' <= c <= 'Z' then (c as int + 32) as char else c
  }

  // The word "feedback" opens the heading, in any case.
  predicate IsFeedback(heading: string) {
    && |heading| >= 8
    && (forall i :: 0 <= i < 8 ==> Lower(heading[i]) == "feedback"[i])
    && (|heading| > 8 ==> !IsWordChar(heading[8]))
  }

  predicate IsPlaceholder(line: string) {
    var t := Trim(line);
    |t| >= 2 && t[0] == '(' && t[|t| - 1] == ')' && forall i :: 0 <= i < |t| ==> !IsLineTerminator(t[i])
  }

  // How labels are compared and which headings speak of approval is left to the caller.
  datatype Vocabulary = Vocabulary(actionLabels: seq<string>, mirrors: (string, string) -> bool,
                                   approval: string -> bool)

  // ----- one section -----

  function SectionEnd(lines: seq<string>, headings: seq<Heading>, i: nat): (end: nat)
    requires ValidOutline(lines, headings) && i < |headings|
    ensures headings[i].line <= end < |lines|
  {
    if i + 1 < |headings| then
      assert headings[i].line < headings[i + 1].line;
      headings[i + 1].line - 1
    else |lines| - 1
  }

  function BodyOf(lines: seq<string>, headings: seq<Heading>, i: nat): seq<string>
    requires ValidOutline(lines, headings) && i < |headings|
  {
    lines[headings[i].line + 1..SectionEnd(lines, headings, i) + 1]
  }

  function Tasks(body: seq<string>): seq<Item> {
    if body == [] then []
    else
      var t := ParseTask(body[|body| - 1]);
      Tasks(body[..|body| - 1]) + if Blank(body[|body| - 1]) || t.None? then [] else [t.value]
  }

  predicate IsForeign(line: string) {
    !Blank(line) && ParseTask(line).None?
  }

  function ForeignCount(body: seq<string>): nat {
    if body == [] then 0 else ForeignCount(body[..|body| - 1]) + if IsForeign(body[|body| - 1]) then 1 else 0
  }

  function MirroredCount(items: seq<Item>, labels: seq<string>, mirrors: (string, string) -> bool): nat {
    if items == [] then 0
    else
      MirroredCount(items[..|items| - 1], labels, mirrors)
      + if exists j :: 0 <= j < |labels| && mirrors(items[|items| - 1].caption, labels[j]) then 1 else 0
  }

  function NonEmpty(labels: seq<string>): seq<string> {
    if labels == [] then [] else (if labels[0] == [] then [] else [labels[0]]) + NonEmpty(labels[1..])
  }

  predicate Qualifies(heading: string, items: seq<Item>, voc: Vocabulary) {
    var labels := NonEmpty(voc.actionLabels);
    if labels != [] then MirroredCount(items, labels, voc.mirrors) * 2 >= |items| else voc.approval(heading)
  }

  predicate IsBookkeeping(lines: seq<string>, headings: seq<Heading>, i: nat, voc: Vocabulary)
    requires ValidOutline(lines, headings) && i < |headings|
  {
    var body := BodyOf(lines, headings, i);
    |Tasks(body)| >= 2 && ForeignCount(body) == 0 && Qualifies(headings[i].text, Tasks(body), voc)
  }

  function NonBlank(body: seq<string>): seq<string> {
    if body == [] then [] else NonBlank(body[..|body| - 1]) + if Blank(body[|body| - 1]) then [] else [body[|body| - 1]]
  }

  // The section after i is a feedback prompt that nobody has written into.
  predicate FoldsNext(lines: seq<string>, headings: seq<Heading>, i: nat)
    requires ValidOutline(lines, headings) && i < |headings|
  {
    i + 1 < |headings| && IsFeedback(headings[i + 1].text) &&
    var rest := NonBlank(BodyOf(lines, headings, i + 1));
    rest == [] || (|rest| == 1 && IsPlaceholder(rest[0]))
  }

  predicate AnyChecked(items: seq<Item>) {
    exists j :: 0 <= j < |items| && items[j].checked
  }

  function BlockAt(lines: seq<string>, headings: seq<Heading>, i: nat): Block
    requires ValidOutline(lines, headings) && i < |headings|
  {
    var items := Tasks(BodyOf(lines, headings, i));
    var folds := FoldsNext(lines, headings, i);
    Block(headings[i].line,
          if folds then SectionEnd(lines, headings, i + 1) else SectionEnd(lines, headings, i),
          headings[i].text, items, AnyChecked(items),
          if folds then Some(headings[i + 1].text) else None)
  }

  // The heading looked at after heading i; a folded one is skipped.
  function NextAt(lines: seq<string>, headings: seq<Heading>, i: nat, voc: Vocabulary): (next: nat)
    requires ValidOutline(lines, headings) && i < |headings|
    ensures i < next <= i + 2 && next <= |headings|
  {
    if IsBookkeeping(lines, headings, i, voc) && FoldsNext(lines, headings, i) then i + 2 else i + 1
  }

  // The block of section i, when it is a form.
  function FormAt(lines: seq<string>, headings: seq<Heading>, i: nat, voc: Vocabulary): (r: seq<Block>)
    requires ValidOutline(lines, headings) && i < |headings|
    ensures |r| <= 1
  {
    if IsBookkeeping(lines, headings, i, voc) then [BlockAt(lines, headings, i)] else []
  }

  // The blocks found from heading i on.
  function Detected(lines: seq<string>, headings: seq<Heading>, i: nat, voc: Vocabulary): seq<Block>
    requires ValidOutline(lines, headings) && i <= |headings|
    decreases |headings| - i
  {
    if i == |headings| then []
    else FormAt(lines, headings, i, voc) + Detected(lines, headings, NextAt(lines, headings, i, voc), voc)
  }

  // ----- the detection loop -----

  method ScanSection(body: seq<string>) returns (items: seq<Item>, foreign: nat)
    ensures items == Tasks(body) && foreign == ForeignCount(body)
  {
    items, foreign := [], 0;
    for j := 0 to |body|
      invariant items == Tasks(body[..j]) && foreign == ForeignCount(body[..j])
    {
      assert body[..j + 1][..j] == body[..j];
      if !Blank(body[j]) {
        var task := ParseTask(body[j]);
        if task.Some? {
          items := items + [task.value];
        } else {
          foreign := foreign + 1;
        }
      }
    }
    assert body[..|body|] == body;
  }

  // The items of section i when it is nothing but a mirrored approval form.
  method ApprovalTasks(lines: seq<string>, headings: seq<Heading>, i: nat, voc: Vocabulary)
    returns (items: Option<seq<Item>>)
    requires ValidOutline(lines, headings) && i < |headings|
    ensures items.Some? <==> IsBookkeeping(lines, headings, i, voc)
    ensures items.Some? ==> items.value == Tasks(BodyOf(lines, headings, i))
  {
    var end := SectionEnd(lines, headings, i);
    var found, foreign := ScanSection(lines[headings[i].line + 1..end + 1]);
    if |found| < 2 || foreign > 0 || !Qualifies(headings[i].text, found, voc) {
      return None;
    }
    return Some(found);
  }

  // The block of section i, and the headings it takes up.
  method MakeBlock(lines: seq<string>, headings: seq<Heading>, i: nat, items: seq<Item>)
    returns (block: Block, taken: nat)
    requires ValidOutline(lines, headings) && i < |headings| && items == Tasks(BodyOf(lines, headings, i))
    ensures block == BlockAt(lines, headings, i) && taken == if FoldsNext(lines, headings, i) then 2 else 1
    ensures i + taken <= |headings|
  {
    block := Block(headings[i].line, SectionEnd(lines, headings, i), headings[i].text, items, AnyChecked(items), None);
    taken := 1;
    if FoldsNext(lines, headings, i) {
      block := block.(endLine := SectionEnd(lines, headings, i + 1), feedbackHeading := Some(headings[i + 1].text));
      taken := 2;
    }
  }

  method DetectGateBookkeeping(lines: seq<string>, headings: seq<Heading>, voc: Vocabulary) returns (blocks: seq<Block>)
    requires ValidOutline(lines, headings)
    ensures blocks == Detected(lines, headings, 0, voc)
    ensures forall b :: b in blocks <==> exists k :: 0 <= k < |headings| && IsForm(lines, headings, k, voc, b)
  {
    blocks := [];
    var i := 0;
    ghost var all := Detected(lines, headings, 0, voc);
    while i < |headings|
      invariant 0 <= i <= |headings|
      invariant blocks + Detected(lines, headings, i, voc) == all
    {
      var items := ApprovalTasks(lines, headings, i, voc);
      if items.None? {
        NoForm(lines, headings, i, voc);
        SectionSkipped(lines, headings, i, voc, blocks, all);
        i := i + 1;
        continue;
      }
      var block, taken := MakeBlock(lines, headings, i, items.value);
      OneForm(lines, headings, i, voc);
      SectionTaken(lines, headings, i, voc, blocks, block, i + taken, all);
      blocks := blocks + [block];
      i := i + taken;
    }
    forall b ensures b in blocks <==> exists k :: 0 <= k < |headings| && IsForm(lines, headings, k, voc, b) {
      DetectedExactly(lines, headings, voc, b);
    }
  }

  lemma NoForm(lines: seq<string>, headings: seq<Heading>, i: nat, voc: Vocabulary)
    requires ValidOutline(lines, headings) && i < |headings| && !IsBookkeeping(lines, headings, i, voc)
    ensures FormAt(lines, headings, i, voc) == [] && NextAt(lines, headings, i, voc) == i + 1
  {
  }

  lemma OneForm(lines: seq<string>, headings: seq<Heading>, i: nat, voc: Vocabulary)
    requires ValidOutline(lines, headings) && i < |headings| && IsBookkeeping(lines, headings, i, voc)
    ensures FormAt(lines, headings, i, voc) == [BlockAt(lines, headings, i)]
    ensures NextAt(lines, headings, i, voc) == if FoldsNext(lines, headings, i) then i + 2 else i + 1
  {
  }

  lemma SectionSkipped(lines: seq<string>, headings: seq<Heading>, i: nat, voc: Vocabulary, before: seq<Block>,
                       all: seq<Block>)
    requires ValidOutline(lines, headings) && i < |headings|
    requires FormAt(lines, headings, i, voc) == [] && NextAt(lines, headings, i, voc) == i + 1
    requires before + Detected(lines, headings, i, voc) == all
    ensures before + Detected(lines, headings, i + 1, voc) == all
  {
    NothingConcat(Detected(lines, headings, i + 1, voc));
  }

  lemma SectionTaken(lines: seq<string>, headings: seq<Heading>, i: nat, voc: Vocabulary, before: seq<Block>,
                     b: Block, next: nat, all: seq<Block>)
    requires ValidOutline(lines, headings) && i < |headings|
    requires FormAt(lines, headings, i, voc) == [b] && NextAt(lines, headings, i, voc) == next
    requires before + Detected(lines, headings, i, voc) == all
    ensures before + [b] + Detected(lines, headings, next, voc) == all
  {
    ConcatAssociates(before, [b], Detected(lines, headings, next, voc));
  }

  // ----- blocks are sorted, disjoint and in range -----

  predicate Arranged(blocks: seq<Block>, from: nat, total: nat) {
    && (forall k :: 0 <= k < |blocks| ==> from <= blocks[k].startLine <= blocks[k].endLine < total)
    && forall j, k :: 0 <= j < k < |blocks| ==> blocks[j].endLine < blocks[k].startLine
  }

  // Where section i begins; past the last one, the end of the document.
  function StartOf(lines: seq<string>, headings: seq<Heading>, i: nat): nat {
    if i < |headings| then headings[i].line else |lines|
  }

  lemma StartsAscend(lines: seq<string>, headings: seq<Heading>, i: nat, j: nat)
    requires ValidOutline(lines, headings) && i < j
    ensures StartOf(lines, headings, i) <= StartOf(lines, headings, j) <= |lines|
    ensures i < |headings| ==> StartOf(lines, headings, i) < StartOf(lines, headings, j)
  {
  }

  lemma BlockInPlace(lines: seq<string>, headings: seq<Heading>, i: nat, voc: Vocabulary)
    requires ValidOutline(lines, headings) && i < |headings| && IsBookkeeping(lines, headings, i, voc)
    ensures var b := BlockAt(lines, headings, i);
            b.startLine == headings[i].line
                && b.startLine <= b.endLine < StartOf(lines, headings, NextAt(lines, headings, i, voc))
  {
    StartsAscend(lines, headings, i, i + 1);
    StartsAscend(lines, headings, i + 1, i + 2);
  }

  lemma ArrangedCons(b: Block, rest: seq<Block>, from: nat, mid: nat, total: nat)
    requires from <= b.startLine <= b.endLine < mid <= total && Arranged(rest, mid, total)
    ensures Arranged([b] + rest, from, total)
  {
  }

  lemma ArrangedEarlier(rest: seq<Block>, from: nat, mid: nat, total: nat)
    requires from <= mid && Arranged(rest, mid, total)
    ensures Arranged([] + rest, from, total)
  {
    assert [] + rest == rest;
  }

  lemma {:induction false} DetectedArranged(lines: seq<string>, headings: seq<Heading>, i: nat, voc: Vocabulary)
    requires ValidOutline(lines, headings) && i <= |headings|
    ensures Arranged(Detected(lines, headings, i, voc), StartOf(lines, headings, i), |lines|)
    decreases |headings| - i
  {
    if i < |headings| {
      var next := NextAt(lines, headings, i, voc);
      var rest, from, mid := Detected(lines, headings, next, voc), headings[i].line, StartOf(lines, headings, next);
      DetectedArranged(lines, headings, next, voc);
      StartsAscend(lines, headings, i, next);
      if IsBookkeeping(lines, headings, i, voc) {
        BlockInPlace(lines, headings, i, voc);
        ArrangedCons(BlockAt(lines, headings, i), rest, from, mid, |lines|);
      } else {
        ArrangedEarlier(rest, from, mid, |lines|);
      }
    }
  }

  // ----- nothing that is not understood is hidden -----

  // What one line inside a block may be.
  datatype Role = TheHeading | TheTask | TheBlank | TheFeedbackHeading | ThePlaceholder

  predicate HasRole(lines: seq<string>, headings: seq<Heading>, i: nat, n: nat, role: Role)
    requires ValidOutline(lines, headings) && i < |headings| && n < |lines|
  {
    var end := SectionEnd(lines, headings, i);
    match role
    case TheHeading => n == headings[i].line
    case TheTask => headings[i].line < n <= end && ParseTask(lines[n]).Some?
    case TheBlank => Blank(lines[n])
    case TheFeedbackHeading => FoldsNext(lines, headings, i) && n == headings[i + 1].line
    case ThePlaceholder => FoldsNext(lines, headings, i) && n > headings[i + 1].line && IsPlaceholder(lines[n])
                           && NonBlank(BodyOf(lines, headings, i + 1)) == [lines[n]]
  }

  lemma {:induction false} NoForeign(body: seq<string>, k: nat)
    requires ForeignCount(body) == 0 && k < |body|
    ensures !IsForeign(body[k])
  {
    if k < |body| - 1 {
      NoForeign(body[..|body| - 1], k);
    }
  }

  lemma {:induction false} NonBlankHas(body: seq<string>, k: nat)
    requires k < |body| && !Blank(body[k])
    ensures body[k] in NonBlank(body)
  {
    if k < |body| - 1 {
      NonBlankHas(body[..|body| - 1], k);
    }
  }

  /** Every line of a detected block is its heading, a task, a blank line, the folded feedback heading
      or the one placeholder below it. */
  lemma {:induction false} LineOfBlock(lines: seq<string>, headings: seq<Heading>, i: nat, voc: Vocabulary, n: nat)
    returns (role: Role)
    requires ValidOutline(lines, headings) && i < |headings| && IsBookkeeping(lines, headings, i, voc)
    requires BlockAt(lines, headings, i).startLine <= n <= BlockAt(lines, headings, i).endLine
    ensures n < |lines| && HasRole(lines, headings, i, n, role)
  {
    if n <= SectionEnd(lines, headings, i) {
      role := LineOfForm(lines, headings, i, voc, n);
    } else {
      role := LineOfFolded(lines, headings, i, n);
    }
  }

  lemma LineOfForm(lines: seq<string>, headings: seq<Heading>, i: nat, voc: Vocabulary, n: nat) returns (role: Role)
    requires ValidOutline(lines, headings) && i < |headings| && IsBookkeeping(lines, headings, i, voc)
    requires headings[i].line <= n <= SectionEnd(lines, headings, i)
    ensures HasRole(lines, headings, i, n, role)
  {
    if n == headings[i].line {
      role := TheHeading;
    } else if Blank(lines[n]) {
      role := TheBlank;
    } else {
      NoForeign(BodyOf(lines, headings, i), n - headings[i].line - 1);
      assert BodyOf(lines, headings, i)[n - headings[i].line - 1] == lines[n];
      role := TheTask;
    }
  }

  lemma LineOfFolded(lines: seq<string>, headings: seq<Heading>, i: nat, n: nat) returns (role: Role)
    requires ValidOutline(lines, headings) && i < |headings| && FoldsNext(lines, headings, i)
    requires headings[i + 1].line <= n <= SectionEnd(lines, headings, i + 1)
    ensures HasRole(lines, headings, i, n, role)
  {
    if n == headings[i + 1].line {
      role := TheFeedbackHeading;
    } else if Blank(lines[n]) {
      role := TheBlank;
    } else {
      NonBlankHas(BodyOf(lines, headings, i + 1), n - headings[i + 1].line - 1);
      role := ThePlaceholder;
    }
  }

  lemma {:induction false} DetectedComesFrom(lines: seq<string>, headings: seq<Heading>, i: nat, voc: Vocabulary,
                                             b: Block) returns (k: nat)
    requires ValidOutline(lines, headings) && i <= |headings| && b in Detected(lines, headings, i, voc)
    ensures i <= k < |headings| && IsBookkeeping(lines, headings, k, voc) && b == BlockAt(lines, headings, k)
    decreases |headings| - i
  {
    if b in FormAt(lines, headings, i, voc) {
      k := i;
    } else {
      k := DetectedComesFrom(lines, headings, NextAt(lines, headings, i, voc), voc, b);
    }
  }

  /** Nothing else is ever hidden in a bookkeeping block, and each has at least two tasks - also
      after the loop has skipped a folded heading. */
  lemma {:induction false} NothingElseHidden(lines: seq<string>, headings: seq<Heading>, voc: Vocabulary, b: Block,
                                             n: nat)
    returns (k: nat, role: Role)
    requires ValidOutline(lines, headings) && b in Detected(lines, headings, 0, voc) && b.startLine <= n <= b.endLine
    ensures k < |headings| && b == BlockAt(lines, headings, k) && n < |lines| && HasRole(lines, headings, k, n, role)
    ensures |b.items| >= 2
  {
    k := DetectedComesFrom(lines, headings, 0, voc, b);
    role := LineOfBlock(lines, headings, k, voc, n);
  }

  // ----- and every form is found -----

  lemma {:induction false} TasksAreNonBlank(body: seq<string>)
    ensures |Tasks(body)| <= |NonBlank(body)|
  {
    if body != [] {
      TasksAreNonBlank(body[..|body| - 1]);
    }
  }

  // A heading that is folded in is never a form itself.
  lemma FoldedIsNoForm(lines: seq<string>, headings: seq<Heading>, i: nat, voc: Vocabulary)
    requires ValidOutline(lines, headings) && i < |headings| && FoldsNext(lines, headings, i)
    ensures !IsBookkeeping(lines, headings, i + 1, voc)
  {
    TasksAreNonBlank(BodyOf(lines, headings, i + 1));
  }

  lemma FormIsDetected(lines: seq<string>, headings: seq<Heading>, i: nat, voc: Vocabulary)
    requires ValidOutline(lines, headings) && i < |headings| && IsBookkeeping(lines, headings, i, voc)
    ensures BlockAt(lines, headings, i) in Detected(lines, headings, i, voc)
  {
    assert Detected(lines, headings, i, voc)[0] == BlockAt(lines, headings, i);
  }

  lemma LaterIsDetected(lines: seq<string>, headings: seq<Heading>, i: nat, voc: Vocabulary, b: Block)
    requires ValidOutline(lines, headings) && i < |headings|
    requires b in Detected(lines, headings, NextAt(lines, headings, i, voc), voc)
    ensures b in Detected(lines, headings, i, voc)
  {
  }

  lemma {:induction false} DetectedFrom(lines: seq<string>, headings: seq<Heading>, i: nat, voc: Vocabulary, k: nat)
    requires ValidOutline(lines, headings) && i <= k < |headings| && IsBookkeeping(lines, headings, k, voc)
    ensures BlockAt(lines, headings, k) in Detected(lines, headings, i, voc)
    decreases |headings| - i
  {
    if i == k {
      FormIsDetected(lines, headings, k, voc);
    } else {
      var next := NextAt(lines, headings, i, voc);
      if FoldsNext(lines, headings, i) {
        FoldedIsNoForm(lines, headings, i, voc);
      }
      assert next <= k;
      DetectedFrom(lines, headings, next, voc, k);
      LaterIsDetected(lines, headings, i, voc, BlockAt(lines, headings, k));
    }
  }

  lemma DetectedAre(lines: seq<string>, headings: seq<Heading>, voc: Vocabulary, b: Block)
    requires ValidOutline(lines, headings)
    ensures b in Detected(lines, headings, 0, voc) <==>
              exists k :: 0 <= k < |headings| && IsBookkeeping(lines, headings, k, voc)
                  && b == BlockAt(lines, headings, k)
  {
    if b in Detected(lines, headings, 0, voc) {
      var k := DetectedComesFrom(lines, headings, 0, voc, b);
    }
    forall k | 0 <= k < |headings| && IsBookkeeping(lines, headings, k, voc) && b == BlockAt(lines, headings, k)
      ensures b in Detected(lines, headings, 0, voc)
    {
      DetectedFrom(lines, headings, 0, voc, k);
    }
  }

  // ----- what a form is -----

  // The items that say what some button says.
  function Mirroring(items: seq<Item>, voc: Vocabulary): set<nat> {
    set j: nat | j < |items| && MirrorsSome(items[j], voc)
  }

  predicate MirrorsSome(item: Item, voc: Vocabulary) {
    exists l :: l in voc.actionLabels && l != "" && voc.mirrors(item.caption, l)
  }

  /** With labels, at least half of the items mirror one of them; without, the heading speaks of approval. */
  predicate AsksForApproval(heading: string, items: seq<Item>, voc: Vocabulary) {
    if exists l :: l in voc.actionLabels && l != "" then 2 * |Mirroring(items, voc)| >= |items|
    else voc.approval(heading)
  }

  lemma {:induction false} NonEmptyHas(labels: seq<string>)
    ensures forall l :: l in NonEmpty(labels) <==> l in labels && l != ""
  {
    if labels != [] {
      NonEmptyHas(labels[1..]);
      assert labels == [labels[0]] + labels[1..];
    }
  }

  lemma MirrorsExactly(item: Item, voc: Vocabulary)
    ensures var labels := NonEmpty(voc.actionLabels);
            MirrorsSome(item, voc) <==> exists j :: 0 <= j < |labels| && voc.mirrors(item.caption, labels[j])
  {
    var labels := NonEmpty(voc.actionLabels);
    NonEmptyHas(voc.actionLabels);
    forall j | 0 <= j < |labels| ensures labels[j] in voc.actionLabels && labels[j] != "" {
      assert labels[j] in labels;
    }
  }

  lemma MirroringLast(items: seq<Item>, voc: Vocabulary)
    requires items != []
    ensures var front, last := items[..|items| - 1], |items| - 1;
            && Mirroring(items, voc) == Mirroring(front, voc) + (if MirrorsSome(items[last], voc) then {last} else {})
            && last !in Mirroring(front, voc)
  {
  }

  lemma {:induction false} MirroredCounts(items: seq<Item>, voc: Vocabulary)
    ensures MirroredCount(items, NonEmpty(voc.actionLabels), voc.mirrors) == |Mirroring(items, voc)|
  {
    if items == [] {
      assert Mirroring(items, voc) == {};
    } else {
      MirroredCounts(items[..|items| - 1], voc);
      MirrorsExactly(items[|items| - 1], voc);
      MirroringLast(items, voc);
    }
  }

  lemma QualifiesExactly(heading: string, items: seq<Item>, voc: Vocabulary)
    ensures Qualifies(heading, items, voc) <==> AsksForApproval(heading, items, voc)
  {
    MirroredCounts(items, voc);
    NonEmptyHas(voc.actionLabels);
    if NonEmpty(voc.actionLabels) != [] {
      assert NonEmpty(voc.actionLabels)[0] in NonEmpty(voc.actionLabels);
    }
  }

  // The items are those that the task lines say, in order.
  predicate ItemsOf(body: seq<string>, items: seq<Item>) {
    if body == [] then items == []
    else
      match ParseTask(body[0])
      case None => ItemsOf(body[1..], items)
      case Some(item) => items != [] && items[0] == item && ItemsOf(body[1..], items[1..])
  }

  lemma {:induction false} TasksAppend(a: seq<string>, b: seq<string>)
    ensures Tasks(a + b) == Tasks(a) + Tasks(b)
  {
    if b == [] {
      assert a + b == a;
    } else {
      assert (a + b)[..|a + b| - 1] == a + b[..|b| - 1];
      TasksAppend(a, b[..|b| - 1]);
    }
  }

  lemma BlankIsNoTask(line: string)
    requires Blank(line)
    ensures ParseTask(line).None?
  {
    TrimLeftBlank(line);
  }

  lemma {:induction false} TrimLeftBlank(s: string)
    requires Blank(s)
    ensures TrimLeft(s) == []
  {
    if s != [] {
      TrimLeftBlank(s[1..]);
    }
  }

  lemma {:induction false} ItemsAreTasks(body: seq<string>, items: seq<Item>)
    ensures ItemsOf(body, items) <==> items == Tasks(body)
  {
    if body != [] {
      var first, rest := [body[0]], body[1..];
      assert body == first + rest;
      TasksAppend(first, rest);
      assert first[..0] == [];
      if Blank(body[0]) {
        BlankIsNoTask(body[0]);
      }
      match ParseTask(body[0])
      case None => ItemsAreTasks(rest, items);
      case Some(item) =>
        assert Tasks(first) == [item];
        if items != [] {
          ItemsAreTasks(rest, items[1..]);
          assert items == [items[0]] + items[1..];
        }
    }
  }

  lemma {:induction false} NoForeignExactly(body: seq<string>)
    ensures ForeignCount(body) == 0 <==> forall i :: 0 <= i < |body| ==> Blank(body[i]) || ParseTask(body[i]).Some?
  {
    if body != [] {
      NoForeignExactly(body[..|body| - 1]);
    }
  }

  // The word in any case, and then none of the characters of a longer word.
  predicate SaysFeedback(heading: string) {
    && |heading| >= 8
    && (forall i :: 0 <= i < 8 ==> heading[i] in {"feedback"[i], "FEEDBACK"[i]})
    && (|heading| > 8 ==>
          var code := heading[8] as int;
          !(48 <= code <= 57 || 65 <= code <= 90 || code == 95 || 97 <= code <= 122))
  }

  lemma FeedbackExactly(heading: string)
    ensures IsFeedback(heading) <==> SaysFeedback(heading)
  {
    assert "feedback" == ['f', 'e', 'e', 'd', 'b', 'a', 'c', 'k'];
    assert "FEEDBACK" == ['F', 'E', 'E', 'D', 'B', 'A', 'C', 'K'];
    if |heading| >= 8 {
      forall i | 0 <= i < 8
        ensures Lower(heading[i]) == "feedback"[i] <==> heading[i] in {"feedback"[i], "FEEDBACK"[i]}
      {
      }
    }
  }

  // A remark in parentheses, on one line.
  ghost predicate InParentheses(line: string) {
    exists before, inner, after :: IsRemark(line, before, inner, after)
  }

  predicate IsRemark(line: string, before: string, inner: string, after: string) {
    && line == before + ("(" + (inner + (")" + after))) && Blank(before) && Blank(after)
    && forall i :: 0 <= i < |inner| ==> !IsLineTerminator(inner[i])
  }

  lemma PlaceholderExactly(line: string)
    ensures IsPlaceholder(line) <==> InParentheses(line)
  {
    if IsPlaceholder(line) {
      PlaceholderIsRemark(line);
    }
    if InParentheses(line) {
      var before, inner, after :| IsRemark(line, before, inner, after);
      RemarkIsPlaceholder(line, before, inner, after);
    }
  }

  lemma PlaceholderIsRemark(line: string)
    requires IsPlaceholder(line)
    ensures InParentheses(line)
  {
    var before := TrimLeftSplits(line);
    var after := TrimRightSplits(TrimLeft(line));
    var t := Trim(line);
    var inner := t[1..|t| - 1];
    ParenthesesAround(t);
    assert line == before + ("(" + (inner + (")" + after))) by {
      ConcatAssociates("(", inner + ")", after);
      ConcatAssociates(inner, ")", after);
    }
    assert IsRemark(line, before, inner, after);
  }

  lemma ParenthesesAround(t: string)
    requires |t| >= 2 && t[0] == '(' && t[|t| - 1] == ')'
    ensures t == "(" + (t[1..|t| - 1] + ")")
  {
  }

  lemma RemarkIsPlaceholder(line: string, before: string, inner: string, after: string)
    requires IsRemark(line, before, inner, after)
    ensures IsPlaceholder(line)
  {
    var t := "(" + (inner + ")");
    assert line == before + (t + after) by {
      ConcatAssociates("(", inner + ")", after);
      ConcatAssociates(inner, ")", after);
    }
    CaptionRead(before, t, after);
  }

  lemma {:induction false} NonBlankOf(body: seq<string>)
    ensures forall l :: l in NonBlank(body) <==> l in body && !Blank(l)
    ensures |NonBlank(body)| <= 1 <==> AtMostOneNonBlank(body)
  {
    if body != [] {
      var front, last := body[..|body| - 1], body[|body| - 1];
      NonBlankOf(front);
      assert body == front + [last];
      if NonBlank(front) != [] {
        assert NonBlank(front)[0] in front;
      }
    }
  }

  predicate AtMostOneNonBlank(body: seq<string>) {
    forall i, j :: 0 <= i < j < |body| ==> Blank(body[i]) || Blank(body[j])
  }

  /** The next section is folded in exactly when it is a feedback section in which nothing stands but at
      most one remark in parentheses. */
  ghost predicate Folded(lines: seq<string>, headings: seq<Heading>, k: nat)
    requires ValidOutline(lines, headings)
  {
    && k + 1 < |headings| && SaysFeedback(headings[k + 1].text)
    && var body := Section(lines, headings, k + 1);
       (forall i :: 0 <= i < |body| ==> Blank(body[i]) || InParentheses(body[i])) && AtMostOneNonBlank(body)
  }

  // The lines after heading k, up to the next heading or the end.
  function Section(lines: seq<string>, headings: seq<Heading>, k: nat): seq<string>
    requires ValidOutline(lines, headings) && k < |headings|
  {
    if k + 1 < |headings| then
      assert headings[k].line < headings[k + 1].line;
      lines[headings[k].line + 1..headings[k + 1].line]
    else lines[headings[k].line + 1..]
  }

  lemma FoldedExactly(lines: seq<string>, headings: seq<Heading>, k: nat)
    requires ValidOutline(lines, headings) && k < |headings|
    ensures FoldsNext(lines, headings, k) <==> Folded(lines, headings, k)
  {
    if k + 1 < |headings| {
      var body := Section(lines, headings, k + 1);
      assert body == BodyOf(lines, headings, k + 1);
      FeedbackExactly(headings[k + 1].text);
      FoldableExactly(body);
    }
  }

  lemma FoldableExactly(body: seq<string>)
    ensures var rest := NonBlank(body);
            rest == [] || (|rest| == 1 && IsPlaceholder(rest[0]))
            <==> (forall i :: 0 <= i < |body| ==> Blank(body[i]) || InParentheses(body[i])) && AtMostOneNonBlank(body)
  {
    var rest := NonBlank(body);
    NonBlankOf(body);
    forall l ensures IsPlaceholder(l) <==> InParentheses(l) {
      PlaceholderExactly(l);
    }
    assert rest != [] ==> rest[0] in rest;
    assert forall i :: 0 <= i < |body| && !Blank(body[i]) ==> body[i] in rest;
  }

  /** A block is the form of section k: nothing but blank lines and at least two tasks, which ask for
      approval, with the feedback section after it when that is folded in. */
  ghost predicate IsForm(lines: seq<string>, headings: seq<Heading>, k: nat, voc: Vocabulary, b: Block)
    requires ValidOutline(lines, headings) && k < |headings|
  {
    var body, folded := Section(lines, headings, k), Folded(lines, headings, k);
    && (forall i :: 0 <= i < |body| ==> Blank(body[i]) || ParseTask(body[i]).Some?)
    && ItemsOf(body, b.items) && |b.items| >= 2 && AsksForApproval(headings[k].text, b.items, voc)
    && b.startLine == headings[k].line && b.heading == headings[k].text
    && (b.answered <==> exists j :: 0 <= j < |b.items| && b.items[j].checked)
    && b.feedbackHeading == (if folded then Some(headings[k + 1].text) else None)
    && b.endLine == headings[k].line + |body| + if folded then 1 + |Section(lines, headings, k + 1)| else 0
  }

  lemma FormExactly(lines: seq<string>, headings: seq<Heading>, k: nat, voc: Vocabulary, b: Block)
    requires ValidOutline(lines, headings) && k < |headings|
    ensures IsForm(lines, headings, k, voc, b)
            <==> IsBookkeeping(lines, headings, k, voc) && b == BlockAt(lines, headings, k)
  {
    var body := Section(lines, headings, k);
    assert body == BodyOf(lines, headings, k);
    NoForeignExactly(body);
    ItemsAreTasks(body, b.items);
    QualifiesExactly(headings[k].text, b.items, voc);
    FoldedExactly(lines, headings, k);
    EndsAtSections(lines, headings, k);
  }

  lemma EndsAtSections(lines: seq<string>, headings: seq<Heading>, k: nat)
    requires ValidOutline(lines, headings) && k < |headings|
    ensures SectionEnd(lines, headings, k) == headings[k].line + |Section(lines, headings, k)|
    ensures k + 1 < |headings| ==>
              headings[k + 1].line == headings[k].line + |Section(lines, headings, k)| + 1
              && SectionEnd(lines, headings, k + 1) == headings[k + 1].line + |Section(lines, headings, k + 1)|
  {
  }

  /** The detected blocks are exactly the approval forms: skipping a folded heading misses none. */
  lemma DetectedExactly(lines: seq<string>, headings: seq<Heading>, voc: Vocabulary, b: Block)
    requires ValidOutline(lines, headings)
    ensures b in Detected(lines, headings, 0, voc) <==>
              exists k :: 0 <= k < |headings| && IsForm(lines, headings, k, voc, b)
  {
    DetectedAre(lines, headings, voc, b);
    forall k | 0 <= k < |headings|
      ensures IsForm(lines, headings, k, voc, b)
              <==> IsBookkeeping(lines, headings, k, voc) && b == BlockAt(lines, headings, k)
    {
      FormExactly(lines, headings, k, voc, b);
    }
  }
  // ----- what a task line looks like -----

  // The parts of a task line: blanks, a bullet, blanks, the box, blanks, the caption, blanks.
  datatype TaskParts = TaskParts(indent: string, bullet: char, gap: string, mark: char, space: string, caption: string,
                                 tail: string)

  predicate TaskPartsOk(p: TaskParts) {
    && Blank(p.indent) && p.bullet in {'-', '*', '+'} && Blank(p.gap) && p.gap != []
    && p.mark in {' ', 'x', 'X'} && Blank(p.space) && p.space != []
    && p.caption != [] && !IsSpace(p.caption[0]) && !IsSpace(p.caption[|p.caption| - 1])
    && (forall i :: 0 <= i < |p.caption| ==> !IsLineTerminator(p.caption[i]))
    && Blank(p.tail)
  }

  function TaskLine(p: TaskParts): string {
    p.indent + ([p.bullet] + (p.gap + (['[', p.mark, ']'] + (p.space + (p.caption + p.tail)))))
  }

  lemma {:induction false} TrimLeftOf(blanks: string, rest: string)
    requires Blank(blanks) && (rest == [] || !IsSpace(rest[0]))
    ensures TrimLeft(blanks + rest) == rest
  {
    if blanks == [] {
      assert blanks + rest == rest;
    } else {
      assert (blanks + rest)[1..] == blanks[1..] + rest;
      TrimLeftOf(blanks[1..], rest);
    }
  }

  lemma {:induction false} TrimRightOf(rest: string, blanks: string)
    requires Blank(blanks) && (rest == [] || !IsSpace(rest[|rest| - 1]))
    ensures TrimRight(rest + blanks) == rest
  {
    if blanks == [] {
      assert rest + blanks == rest;
    } else {
      assert (rest + blanks)[..|rest + blanks| - 1] == rest + blanks[..|blanks| - 1];
      TrimRightOf(rest, blanks[..|blanks| - 1]);
    }
  }

  lemma {:induction false} TrimLeftSplits(s: string) returns (blanks: string)
    ensures Blank(blanks) && s == blanks + TrimLeft(s)
    ensures TrimLeft(s) == [] || !IsSpace(TrimLeft(s)[0])
  {
    if s != [] && IsSpace(s[0]) {
      var rest := TrimLeftSplits(s[1..]);
      blanks := [s[0]] + rest;
      assert s == [s[0]] + s[1..];
      ConcatAssociates([s[0]], rest, TrimLeft(s[1..]));
    } else {
      blanks := [];
    }
  }

  lemma {:induction false} TrimRightSplits(s: string) returns (blanks: string)
    ensures Blank(blanks) && s == TrimRight(s) + blanks
    ensures TrimRight(s) == [] || (!IsSpace(TrimRight(s)[|TrimRight(s)| - 1]) && TrimRight(s)[0] == s[0])
  {
    if s != [] && IsSpace(s[|s| - 1]) {
      var rest := TrimRightSplits(s[..|s| - 1]);
      blanks := rest + [s[|s| - 1]];
      assert s == s[..|s| - 1] + [s[|s| - 1]];
      ConcatAssociates(TrimRight(s), rest, [s[|s| - 1]]);
    } else {
      blanks := [];
    }
  }

  lemma TaskLineParses(p: TaskParts)
    requires TaskPartsOk(p)
    ensures ParseTask(TaskLine(p)) == Some(Item(p.caption, p.mark != ' '))
  {
    var labelled := p.space + (p.caption + p.tail);
    var box := ['[', p.mark, ']'] + labelled;
    var bulleted := [p.bullet] + (p.gap + box);
    TrimLeftOf(p.indent, bulleted);
    assert bulleted[1..] == p.gap + box && bulleted[1] == p.gap[0];
    TrimLeftOf(p.gap, box);
    assert box[3..] == labelled && box[3] == p.space[0];
    CaptionRead(p.space, p.caption, p.tail);
  }

  lemma CaptionRead(space: string, caption: string, tail: string)
    requires Blank(space) && Blank(tail) && caption != [] && !IsSpace(caption[0]) && !IsSpace(caption[|caption| - 1])
    ensures Trim(space + (caption + tail)) == caption
  {
    TrimLeftOf(space, caption + tail);
    TrimRightOf(caption, tail);
  }

  lemma ParsedIsTaskLine(line: string) returns (p: TaskParts)
    requires ParseTask(line).Some?
    ensures TaskPartsOk(p) && TaskLine(p) == line && ParseTask(line) == Some(Item(p.caption, p.mark != ' '))
  {
    var t := TrimLeft(line);
    var box := TrimLeft(t[1..]);
    var inner := TrimLeft(box[3..]);
    var indent := TrimLeftSplits(line);
    var gap := TrimLeftSplits(t[1..]);
    var space := TrimLeftSplits(box[3..]);
    var tail := TrimRightSplits(inner);
    p := TaskParts(indent, t[0], gap, box[1], space, TrimRight(inner), tail);
    assert space != [] by {
      assert box[3..][0] == box[3];
    }
    assert gap != [] by {
      assert t[1..][0] == t[1];
    }
    assert box == ['[', box[1], ']'] + box[3..] && t == [t[0]] + t[1..];
  }

  /** A line is read as a task exactly when it is made of those parts, and what is read are its
      caption and its mark. */
  lemma TaskLineExact(line: string, item: Item)
    ensures ParseTask(line) == Some(item) <==>
              exists p :: TaskPartsOk(p) && TaskLine(p) == line && item == Item(p.caption, p.mark != ' ')
  {
    if ParseTask(line) == Some(item) {
      var p := ParsedIsTaskLine(line);
    }
    forall p | TaskPartsOk(p) && TaskLine(p) == line ensures ParseTask(line) == Some(Item(p.caption, p.mark != ' ')) {
      TaskLineParses(p);
    }
  }

  // ----- splitting into lines and joining again -----

  predicate OneLine(s: string) {
    '\n' !in s
  }

  predicate AllOneLine(lines: seq<string>) {
    forall i :: 0 <= i < |lines| ==> OneLine(lines[i])
  }

  // Lines end at a line feed, and at a carriage return and line feed together.
  function SplitLines(s: string): (r: seq<string>)
    ensures |r| >= 1 && AllOneLine(r)
  {
    if s == [] then [""]
    else if s[0] == '\n' then [""] + SplitLines(s[1..])
    else if s[0] == '\r' && |s| > 1 && s[1] == '\n' then [""] + SplitLines(s[2..])
    else
      var rest := SplitLines(s[1..]);
      [[s[0]] + rest[0]] + rest[1..]
  }

  // Lines with what ends each of them but the last: a line feed, after a carriage return where crs says so.
  function Glued(lines: seq<string>, crs: seq<bool>): string
    requires |lines| == |crs| + 1
  {
    if crs == [] then lines[0] else lines[0] + Ending(crs[0]) + Glued(lines[1..], crs[1..])
  }

  function Ending(cr: bool): string {
    if cr then "\r\n" else "\n"
  }

  // A carriage return before a line feed belongs to the ending, not to the line.
  predicate Ends(lines: seq<string>, crs: seq<bool>) {
    && |lines| == |crs| + 1 && AllOneLine(lines)
    && forall i :: 0 <= i < |crs| && !crs[i] ==> lines[i] == [] || lines[i][|lines[i]| - 1] != '\r'
  }

  lemma {:induction false} SplitFirstLine(a: string, cr: bool, rest: string)
    requires OneLine(a) && (!cr ==> a == [] || a[|a| - 1] != '\r')
    ensures SplitLines(a + Ending(cr) + rest) == [a] + SplitLines(rest)
  {
    var s := a + Ending(cr) + rest;
    if a == [] {
      assert cr ==> s[2..] == rest;
      assert !cr ==> s[1..] == rest;
    } else {
      assert s[1..] == a[1..] + Ending(cr) + rest;
      SplitFirstLine(a[1..], cr, rest);
      assert [a[0]] + a[1..] == a;
    }
  }

  lemma {:induction false} LastLine(a: string)
    requires OneLine(a)
    ensures SplitLines(a) == [a]
  {
    if a != [] {
      LastLine(a[1..]);
      assert [a[0]] + a[1..] == a;
    }
  }

  lemma {:induction false} SplitLinesGlued(lines: seq<string>, crs: seq<bool>)
    requires Ends(lines, crs)
    ensures SplitLines(Glued(lines, crs)) == lines
  {
    if crs == [] {
      LastLine(lines[0]);
    } else {
      SplitLinesGlued(lines[1..], crs[1..]);
      SplitFirstLine(lines[0], crs[0], Glued(lines[1..], crs[1..]));
    }
  }

  lemma {:induction false} EndingsOf(s: string) returns (crs: seq<bool>)
    ensures Ends(SplitLines(s), crs) && Glued(SplitLines(s), crs) == s
  {
    if s == [] {
      crs := [];
    } else if s[0] == '\n' {
      var rest := EndingsOf(s[1..]);
      crs := [false] + rest;
      assert s == [] + Ending(false) + s[1..];
    } else if s[0] == '\r' && |s| > 1 && s[1] == '\n' {
      var rest := EndingsOf(s[2..]);
      crs := [true] + rest;
      assert s == [] + Ending(true) + s[2..];
    } else {
      crs := EndingsOf(s[1..]);
      FirstGrows(s[0], SplitLines(s[1..]), crs);
      assert s == [s[0]] + s[1..];
    }
  }

  lemma FirstGrows(c: char, lines: seq<string>, crs: seq<bool>)
    requires Ends(lines, crs) && c != '\n' && (c == '\r' && lines[0] == [] && crs != [] ==> crs[0])
    ensures var more := [[c] + lines[0]] + lines[1..]; Ends(more, crs) && Glued(more, crs) == [c] + Glued(lines, crs)
  {
  }

  /** The lines are the only ones that, each ended by a line feed or by a carriage return and line feed,
      make up the text. */
  lemma SplitLinesExact(s: string, lines: seq<string>)
    ensures lines == SplitLines(s) <==> exists crs :: Ends(lines, crs) && Glued(lines, crs) == s
  {
    var crs := EndingsOf(s);
    forall crs | Ends(lines, crs) && Glued(lines, crs) == s ensures lines == SplitLines(s) {
      SplitLinesGlued(lines, crs);
    }
  }

  function Join(lines: seq<string>): string {
    if lines == [] then "" else if |lines| == 1 then lines[0] else lines[0] + "\n" + Join(lines[1..])
  }

  // The lines of a joined text.
  function Split(s: string): (r: seq<string>)
    ensures |r| >= 1
  {
    if s == [] then [""]
    else if s[0] == '\n' then [""] + Split(s[1..])
    else
      var rest := Split(s[1..]);
      [[s[0]] + rest[0]] + rest[1..]
  }

  lemma {:induction false} SplitOneLine(a: string)
    requires OneLine(a)
    ensures Split(a) == [a]
  {
    if a != [] {
      SplitOneLine(a[1..]);
      assert [a[0]] + a[1..] == a;
    }
  }

  lemma {:induction false} SplitFirst(a: string, rest: string)
    requires OneLine(a)
    ensures Split(a + "\n" + rest) == [a] + Split(rest)
  {
    var s := a + "\n" + rest;
    if a == [] {
      assert s[1..] == rest;
    } else {
      assert s[1..] == a[1..] + "\n" + rest;
      SplitFirst(a[1..], rest);
      assert [a[0]] + a[1..] == a;
    }
  }

  lemma {:induction false} SplitUndoesJoin(lines: seq<string>)
    requires lines != [] && AllOneLine(lines)
    ensures Split(Join(lines)) == lines
  {
    if |lines| == 1 {
      SplitOneLine(lines[0]);
    } else {
      SplitUndoesJoin(lines[1..]);
      SplitFirst(lines[0], Join(lines[1..]));
    }
  }

  lemma {:induction false} BlankText(s: string)
    requires Blank(s)
    ensures forall i :: 0 <= i < |Split(s)| ==> Blank(Split(s)[i])
  {
    if s != [] {
      BlankText(s[1..]);
    }
  }

  lemma {:induction false} NonBlankAppend(a: seq<string>, b: seq<string>)
    ensures NonBlank(a + b) == NonBlank(a) + NonBlank(b)
  {
    if b == [] {
      assert a + b == a;
    } else {
      assert (a + b)[..|a + b| - 1] == a + b[..|b| - 1];
      NonBlankAppend(a, b[..|b| - 1]);
    }
  }

  lemma {:induction false} NonBlankOfBlank(a: seq<string>)
    requires forall i :: 0 <= i < |a| ==> Blank(a[i])
    ensures NonBlank(a) == []
  {
    if a != [] {
      NonBlankOfBlank(a[..|a| - 1]);
    }
  }

  // ----- segments -----

  datatype Segment = Markdown(text: string) | Bookkeeping(text: string, block: Block)

  predicate IsShown(s: Segment) {
    s.Bookkeeping? || !Blank(s.text)
  }

  function Shown(segments: seq<Segment>): seq<Segment> {
    if segments == [] then [] else (if IsShown(segments[0]) then [segments[0]] else []) + Shown(segments[1..])
  }

  function LinesOf(segments: seq<Segment>): seq<string> {
    if segments == [] then [] else Split(segments[0].text) + LinesOf(segments[1..])
  }

  function BlocksOf(segments: seq<Segment>): seq<Block> {
    if segments == [] then []
    else (if segments[0].Bookkeeping? then [segments[0].block] else []) + BlocksOf(segments[1..])
  }

  // The markdown between line cursor and the next block, when there is any.
  function Gap(lines: seq<string>, cursor: nat, next: nat): seq<Segment>
    requires cursor <= next <= |lines|
  {
    if cursor < next then [Markdown(Join(lines[cursor..next]))] else []
  }

  function BlockSegment(lines: seq<string>, b: Block): Segment
    requires b.startLine <= b.endLine < |lines|
  {
    Bookkeeping(Join(lines[b.startLine..b.endLine + 1]), b)
  }

  // The line after the first k blocks.
  function CursorAt(blocks: seq<Block>, k: nat): nat
    requires k <= |blocks|
  {
    if k == 0 then 0 else blocks[k - 1].endLine + 1
  }

  lemma CursorBehind(blocks: seq<Block>, k: nat, total: nat)
    requires Arranged(blocks, 0, total) && k <= |blocks|
    ensures CursorAt(blocks, k) <= total
    ensures k < |blocks| ==> CursorAt(blocks, k) <= blocks[k].startLine <= blocks[k].endLine < total
  {
  }

  // The segments of the lines up to the end of block k - 1, before the blank ones are dropped.
  function LaidUpTo(lines: seq<string>, blocks: seq<Block>, k: nat): seq<Segment>
    requires Arranged(blocks, 0, |lines|) && k <= |blocks|
  {
    if k == 0 then []
    else
      CursorBehind(blocks, k - 1, |lines|);
      LaidUpTo(lines, blocks, k - 1) + Gap(lines, CursorAt(blocks, k - 1), blocks[k - 1].startLine)
      + [BlockSegment(lines, blocks[k - 1])]
  }

  function Laid(lines: seq<string>, blocks: seq<Block>): seq<Segment>
    requires Arranged(blocks, 0, |lines|)
  {
    CursorBehind(blocks, |blocks|, |lines|);
    LaidUpTo(lines, blocks, |blocks|) + Gap(lines, CursorAt(blocks, |blocks|), |lines|)
  }

  method PushGap(segments: seq<Segment>, lines: seq<string>, cursor: nat, next: nat) returns (r: seq<Segment>)
    requires cursor <= next <= |lines|
    ensures r == segments + Gap(lines, cursor, next)
  {
    r := segments;
    if next > cursor {
      r := r + [Markdown(Join(lines[cursor..next]))];
    }
  }

  method SegmentArtifact(content: string, blocks: seq<Block>) returns (segments: seq<Segment>)
    requires Arranged(blocks, 0, |SplitLines(content)|)
    ensures segments == if blocks == [] then [Markdown(content)] else Shown(Laid(SplitLines(content), blocks))
  {
    if |blocks| == 0 {
      return [Markdown(content)];
    }
    var lines := SplitLines(content);
    segments := [];
    var cursor: nat := 0;
    for k := 0 to |blocks|
      invariant cursor == CursorAt(blocks, k)
      invariant segments == LaidUpTo(lines, blocks, k)
    {
      CursorBehind(blocks, k, |lines|);
      var block := blocks[k];
      segments := PushGap(segments, lines, cursor, block.startLine);
      segments := segments + [Bookkeeping(Join(lines[block.startLine..block.endLine + 1]), block)];
      cursor := block.endLine + 1;
    }
    CursorBehind(blocks, |blocks|, |lines|);
    segments := PushGap(segments, lines, cursor, |lines|);
    segments := Shown(segments);
  }

  // ----- no line is lost -----

  lemma {:induction false} LinesOfAppend(a: seq<Segment>, b: seq<Segment>)
    ensures LinesOf(a + b) == LinesOf(a) + LinesOf(b)
  {
    if a == [] {
      assert a + b == b;
    } else {
      assert (a + b)[0] == a[0] && (a + b)[1..] == a[1..] + b;
      LinesOfAppend(a[1..], b);
    }
  }

  lemma {:induction false} BlocksOfAppend(a: seq<Segment>, b: seq<Segment>)
    ensures BlocksOf(a + b) == BlocksOf(a) + BlocksOf(b)
  {
    if a == [] {
      assert a + b == b;
    } else {
      assert (a + b)[0] == a[0] && (a + b)[1..] == a[1..] + b;
      BlocksOfAppend(a[1..], b);
    }
  }

  lemma GapLines(lines: seq<string>, cursor: nat, next: nat)
    requires cursor <= next <= |lines| && AllOneLine(lines)
    ensures LinesOf(Gap(lines, cursor, next)) == lines[cursor..next]
  {
    if cursor < next {
      SplitUndoesJoin(lines[cursor..next]);
      assert Gap(lines, cursor, next)[1..] == [];
    }
  }

  lemma BlockLines(lines: seq<string>, b: Block)
    requires b.startLine <= b.endLine < |lines| && AllOneLine(lines)
    ensures LinesOf([BlockSegment(lines, b)]) == lines[b.startLine..b.endLine + 1]
  {
    SplitUndoesJoin(lines[b.startLine..b.endLine + 1]);
    assert [BlockSegment(lines, b)][1..] == [];
  }

  // The segments hold exactly the lines before cursor.
  predicate HoldLines(segments: seq<Segment>, lines: seq<string>, cursor: nat) {
    cursor <= |lines| && LinesOf(segments) == lines[..cursor]
  }

  lemma {:induction false} LaidUpToLines(lines: seq<string>, blocks: seq<Block>, k: nat)
    requires Arranged(blocks, 0, |lines|) && k <= |blocks| && AllOneLine(lines)
    ensures HoldLines(LaidUpTo(lines, blocks, k), lines, CursorAt(blocks, k))
  {
    if k > 0 {
      CursorBehind(blocks, k - 1, |lines|);
      LaidUpToLines(lines, blocks, k - 1);
      StepLines(lines, blocks[k - 1], CursorAt(blocks, k - 1), LaidUpTo(lines, blocks, k - 1));
    }
  }

  lemma {:induction false} StepLines(lines: seq<string>, b: Block, cursor: nat, front: seq<Segment>)
    requires cursor <= b.startLine <= b.endLine < |lines| && AllOneLine(lines)
    requires HoldLines(front, lines, cursor)
    ensures HoldLines(front + Gap(lines, cursor, b.startLine) + [BlockSegment(lines, b)], lines, b.endLine + 1)
  {
    var gap, mine := Gap(lines, cursor, b.startLine), [BlockSegment(lines, b)];
    LinesOfAppend(front, gap);
    LinesOfAppend(front + gap, mine);
    GapLines(lines, cursor, b.startLine);
    BlockLines(lines, b);
    assert lines[..cursor] + lines[cursor..b.startLine] == lines[..b.startLine];
    assert lines[..b.startLine] + lines[b.startLine..b.endLine + 1] == lines[..b.endLine + 1];
  }

  // Before blank runs are dropped, the segments hold every line once and in order.
  lemma LaidLines(lines: seq<string>, blocks: seq<Block>)
    requires Arranged(blocks, 0, |lines|) && AllOneLine(lines)
    ensures LinesOf(Laid(lines, blocks)) == lines
  {
    var cursor := CursorAt(blocks, |blocks|);
    LaidUpToLines(lines, blocks, |blocks|);
    GapLines(lines, cursor, |lines|);
    LinesOfAppend(LaidUpTo(lines, blocks, |blocks|), Gap(lines, cursor, |lines|));
    assert lines[..cursor] + lines[cursor..|lines|] == lines;
  }

  lemma {:induction false} LaidUpToBlocks(lines: seq<string>, blocks: seq<Block>, k: nat)
    requires Arranged(blocks, 0, |lines|) && k <= |blocks|
    ensures BlocksOf(LaidUpTo(lines, blocks, k)) == blocks[..k]
  {
    if k > 0 {
      CursorBehind(blocks, k - 1, |lines|);
      LaidUpToBlocks(lines, blocks, k - 1);
      StepBlocks(lines, blocks[k - 1], CursorAt(blocks, k - 1), LaidUpTo(lines, blocks, k - 1));
      OneMoreTaken(blocks, k);
    }
  }

  lemma OneMoreTaken<T>(s: seq<T>, k: nat)
    requires 0 < k <= |s|
    ensures s[..k] == s[..k - 1] + [s[k - 1]]
  {
  }

  lemma {:induction false} StepBlocks(lines: seq<string>, b: Block, cursor: nat, front: seq<Segment>)
    requires cursor <= b.startLine <= b.endLine < |lines|
    ensures BlocksOf(front + Gap(lines, cursor, b.startLine) + [BlockSegment(lines, b)]) == BlocksOf(front) + [b]
  {
    var gap, mine := Gap(lines, cursor, b.startLine), [BlockSegment(lines, b)];
    BlocksOfAppend(front, gap);
    BlocksOfAppend(front + gap, mine);
    assert mine[1..] == [];
  }

  lemma LaidBlocks(lines: seq<string>, blocks: seq<Block>)
    requires Arranged(blocks, 0, |lines|)
    ensures BlocksOf(Laid(lines, blocks)) == blocks
  {
    var cursor := CursorAt(blocks, |blocks|);
    CursorBehind(blocks, |blocks|, |lines|);
    LaidUpToBlocks(lines, blocks, |blocks|);
    BlocksOfAppend(LaidUpTo(lines, blocks, |blocks|), Gap(lines, cursor, |lines|));
  }

  // What is dropped is blank.
  lemma {:induction false} ShownLines(segments: seq<Segment>)
    ensures NonBlank(LinesOf(Shown(segments))) == NonBlank(LinesOf(segments))
  {
    if segments != [] {
      ShownLines(segments[1..]);
      NonBlankAppend(Split(segments[0].text), LinesOf(segments[1..]));
      if IsShown(segments[0]) {
        ShownFirst(segments);
        NonBlankAppend(Split(segments[0].text), LinesOf(Shown(segments[1..])));
      } else {
        assert Shown(segments) == Shown(segments[1..]);
        BlankText(segments[0].text);
        NonBlankOfBlank(Split(segments[0].text));
      }
    }
  }

  lemma ShownFirst(segments: seq<Segment>)
    requires segments != [] && IsShown(segments[0])
    ensures LinesOf(Shown(segments)) == Split(segments[0].text) + LinesOf(Shown(segments[1..]))
  {
    assert Shown(segments)[0] == segments[0] && Shown(segments)[1..] == Shown(segments[1..]);
  }

  // No block is dropped.
  lemma {:induction false} ShownBlocks(segments: seq<Segment>)
    ensures BlocksOf(Shown(segments)) == BlocksOf(segments)
  {
    if segments != [] {
      ShownBlocks(segments[1..]);
      if IsShown(segments[0]) {
        assert Shown(segments)[0] == segments[0] && Shown(segments)[1..] == Shown(segments[1..]);
      } else {
        assert Shown(segments) == Shown(segments[1..]);
      }
    }
  }

  /** Segmentation is lossless: the shown segments hold exactly the document's non-blank lines in
      order, and exactly the detected blocks in order. Without a block the document is one segment. */
  lemma SegmentationLossless(content: string, headings: seq<Heading>, voc: Vocabulary)
    requires ValidOutline(SplitLines(content), headings)
    ensures var lines := SplitLines(content);
            var blocks := Detected(lines, headings, 0, voc);
            Arranged(blocks, 0, |lines|)
            && LinesOf(Laid(lines, blocks)) == lines
            && NonBlank(LinesOf(Shown(Laid(lines, blocks)))) == NonBlank(lines)
            && BlocksOf(Shown(Laid(lines, blocks))) == blocks
  {
    var lines := SplitLines(content);
    var blocks := Detected(lines, headings, 0, voc);
    DetectedArranged(lines, headings, 0, voc);
    LaidLines(lines, blocks);
    LaidBlocks(lines, blocks);
    ShownLines(Laid(lines, blocks));
    ShownBlocks(Laid(lines, blocks));
  }
}
