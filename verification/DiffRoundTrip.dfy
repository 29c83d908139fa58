/** The diff reader inverts a diff printer, and its report is enough to rebuild the post-image. */
module DiffRoundTrip {
  import opened Wrappers
  import opened Text
  import opened DiffParser

  // ---- edit scripts ----

  datatype Op = Keep(text: string) | Del(text: string) | Ins(text: string) | NoEol

  /** The pre-image or the post-image of an edit. */
  datatype Side = Old | New

  /** A hunk, with the unchanged lines between it and the hunk before, which are not printed. */
  datatype Block = Block(gap: seq<string>, ops: seq<Op>, heading: string)

  datatype FileChange = FileChange(
    oldPath: string, newPath: string, meta: seq<string>, blocks: seq<Block>, tail: seq<string>)

  /** The lines on one side only: the removed ones or the added ones. */
  predicate Owned(op: Op, side: Side) {
    if side.Old? then op.Del? else op.Ins?
  }

  function Image(ops: seq<Op>, side: Side): seq<string> {
    if ops == [] then []
    else (if ops[0].Keep? || Owned(ops[0], side) then [ops[0].text] else []) + Image(ops[1..], side)
  }

  function Own(ops: seq<Op>, side: Side): seq<string> {
    if ops == [] then []
    else (if Owned(ops[0], side) then [ops[0].text] else []) + Own(ops[1..], side)
  }

  /** The line numbers of `Own(ops, side)` when the image of `ops` begins at line `n`. */
  function OwnNos(ops: seq<Op>, side: Side, n: nat): (nos: seq<nat>)
    ensures |nos| == |Own(ops, side)|
    ensures forall i :: 0 <= i < |nos| ==> n <= nos[i] < n + |Image(ops, side)|
  {
    if ops == [] then []
    else if Owned(ops[0], side) then [n] + OwnNos(ops[1..], side, n + 1)
    else if ops[0].Keep? then OwnNos(ops[1..], side, n + 1)
    else OwnNos(ops[1..], side, n)
  }

  function Keeps(ops: seq<Op>): seq<string> {
    if ops == [] then []
    else (if ops[0].Keep? then [ops[0].text] else []) + Keeps(ops[1..])
  }

  function KeepAll(lines: seq<string>): (ops: seq<Op>)
    ensures |ops| == |lines|
  {
    if lines == [] then [] else [Keep(lines[0])] + KeepAll(lines[1..])
  }

  function Script(blocks: seq<Block>, tail: seq<string>): seq<Op> {
    if blocks == [] then KeepAll(tail)
    else KeepAll(blocks[0].gap) + blocks[0].ops + Script(blocks[1..], tail)
  }

  function FileImage(c: FileChange, side: Side): seq<string> {
    Image(Script(c.blocks, c.tail), side)
  }

  // ---- the printer ----

  function BodyLine(op: Op): string {
    match op
    case Keep(t) => " " + t
    case Del(t) => "-" + t
    case Ins(t) => "+" + t
    case NoEol => "\\ No newline at end of file"
  }

  function Body(ops: seq<Op>): seq<string> {
    if ops == [] then [] else [BodyLine(ops[0])] + Body(ops[1..])
  }

  /** An empty range names the line before it; a range of one line prints no count. */
  function FirstLine(before: nat, count: nat): nat {
    if count == 0 then before else before + 1
  }

  function Range(before: nat, count: nat): string {
    if count == 1 then ShowNat(FirstLine(before, count))
    else ShowNat(FirstLine(before, count)) + "," + ShowNat(count)
  }

  function HunkLine(b: Block, before: nat, after: nat): string {
    "@@ -" + Range(before, |Image(b.ops, Old)|) + " +" + Range(after, |Image(b.ops, New)|) + " @@" + b.heading
  }

  function BlockLines(blocks: seq<Block>, before: nat, after: nat): seq<string> {
    if blocks == [] then []
    else
      var b := blocks[0];
      var o, n := before + |b.gap|, after + |b.gap|;
      [HunkLine(b, o, n)] + Body(b.ops) + BlockLines(blocks[1..], o + |Image(b.ops, Old)|, n + |Image(b.ops, New)|)
  }

  function Header(oldPath: string, newPath: string): string {
    "diff --git a/" + oldPath + " b/" + newPath
  }

  function FileLines(c: FileChange): seq<string> {
    [Header(c.oldPath, c.newPath)] + c.meta + ["--- a/" + c.oldPath, "+++ b/" + c.newPath] + BlockLines(c.blocks, 0, 0)
  }

  function DiffLines(changes: seq<FileChange>): seq<string> {
    if changes == [] then [] else FileLines(changes[0]) + DiffLines(changes[1..])
  }

  /** A meta line (`index ...`, `new file mode ...`) is no header, no hunk and no content. */
  predicate InertMeta(line: string) {
    !StartsWith(line, GIT_HEADER) && !StartsWith(line, "+") && !StartsWith(line, "-") && !StartsWith(line, "@@")
  }

  predicate WellFormed(c: FileChange) {
    c.oldPath != "" && c.newPath != "" && forall m :: m in c.meta ==> InertMeta(m)
  }

  // ---- what the reader sees ----

  /** Printed, this line looks like a `---` or `+++` file header. */
  predicate Hidden(text: string, side: Side) {
    StartsWith(text, if side.Old? then "--" else "++")
  }

  predicate Visible(op: Op) {
    (op.Del? ==> !Hidden(op.text, Old)) && (op.Ins? ==> !Hidden(op.text, New))
  }

  function Seen(ops: seq<Op>): seq<Op> {
    if ops == [] then []
    else (if Visible(ops[0]) then [ops[0]] else []) + Seen(ops[1..])
  }

  function SeenBlocks(blocks: seq<Block>): seq<Op> {
    if blocks == [] then [] else Seen(blocks[0].ops) + SeenBlocks(blocks[1..])
  }

  function SeenNos(blocks: seq<Block>, side: Side, before: nat): seq<nat> {
    if blocks == [] then []
    else
      var b := blocks[0];
      var o := before + |b.gap|;
      OwnNos(Seen(b.ops), side, o + 1) + SeenNos(blocks[1..], side, o + |Image(b.ops, side)|)
  }

  function Report(c: FileChange, path: string): FileDiff {
    FileDiff(path, Own(SeenBlocks(c.blocks), Old), Own(SeenBlocks(c.blocks), New),
             SeenNos(c.blocks, Old, 0), SeenNos(c.blocks, New, 0))
  }

  /** What the edit really did: every removed and added line with its number in its image. */
  function Truth(c: FileChange): FileDiff {
    var ops := Script(c.blocks, c.tail);
    FileDiff(c.newPath, Own(ops, Old), Own(ops, New), OwnNos(ops, Old, 1), OwnNos(ops, New, 1))
  }

  // ---- append laws of the script functions ----

  lemma AppendPeels<T>(a: seq<T>, b: seq<T>)
    requires a != []
    ensures a + b != [] && (a + b)[0] == a[0] && (a + b)[1..] == a[1..] + b
  {}

  lemma Assoc<T>(a: seq<T>, b: seq<T>, c: seq<T>)
    ensures a + b + c == a + (b + c)
  {
  }

  /** The part of the image, and of the own lines, that one operation contributes. */
  function Share(op: Op, side: Side): seq<string> {
    if op.Keep? || Owned(op, side) then [op.text] else []
  }

  function OwnShare(op: Op, side: Side): seq<string> {
    if Owned(op, side) then [op.text] else []
  }

  lemma ImagePeels(ops: seq<Op>, side: Side)
    requires ops != []
    ensures Image(ops, side) == Share(ops[0], side) + Image(ops[1..], side)
  {}

  lemma OwnPeels(ops: seq<Op>, side: Side)
    requires ops != []
    ensures Own(ops, side) == OwnShare(ops[0], side) + Own(ops[1..], side)
  {}

  lemma NosPeel(ops: seq<Op>, side: Side, n: nat)
    requires ops != []
    ensures OwnNos(ops, side, n) ==
      (if Owned(ops[0], side) then [n] else []) + OwnNos(ops[1..], side, n + |Share(ops[0], side)|)
  {
    if !Owned(ops[0], side) {
      var rest := OwnNos(ops[1..], side, n + |Share(ops[0], side)|);
      assert [] + rest == rest;
    }
  }

  lemma AppendNothing<T>(b: seq<T>)
    ensures [] + b == b
  {}

  lemma NothingOwned(side: Side, n: nat)
    ensures Image([], side) == [] && Own([], side) == [] && OwnNos([], side, n) == []
  {}

  lemma {:induction false} ImageAppend(a: seq<Op>, b: seq<Op>, side: Side)
    ensures Image(a + b, side) == Image(a, side) + Image(b, side)
  {
    hide Image, Share;
    if a == [] {
      NothingOwned(side, 0);
      AppendNothing(b);
      AppendNothing(Image(b, side));
    } else {
      AppendPeels(a, b);
      ImagePeels(a, side);
      ImagePeels(a + b, side);
      ImageAppend(a[1..], b, side);
      Assoc(Share(a[0], side), Image(a[1..], side), Image(b, side));
    }
  }

  lemma {:induction false} OwnAppend(a: seq<Op>, b: seq<Op>, side: Side)
    ensures Own(a + b, side) == Own(a, side) + Own(b, side)
  {
    hide Own, OwnShare;
    if a == [] {
      NothingOwned(side, 0);
      AppendNothing(b);
      AppendNothing(Own(b, side));
    } else {
      AppendPeels(a, b);
      OwnPeels(a, side);
      OwnPeels(a + b, side);
      OwnAppend(a[1..], b, side);
      Assoc(OwnShare(a[0], side), Own(a[1..], side), Own(b, side));
    }
  }

  lemma {:induction false} NosAppend(a: seq<Op>, b: seq<Op>, side: Side, n: nat)
    ensures OwnNos(a + b, side, n) == OwnNos(a, side, n) + OwnNos(b, side, n + |Image(a, side)|)
  {
    hide OwnNos, Image, Own, Share;
    if a == [] {
      NothingOwned(side, n);
      AppendNothing(b);
      AppendNothing(OwnNos(b, side, n));
    } else {
      var m := n + |Share(a[0], side)|;
      AppendPeels(a, b);
      ImagePeels(a, side);
      NosPeel(a, side, n);
      NosPeel(a + b, side, n);
      NosAppend(a[1..], b, side, m);
      Assoc(if Owned(a[0], side) then [n] else [], OwnNos(a[1..], side, m), OwnNos(b, side, n + |Image(a, side)|));
    }
  }

  lemma {:induction false} KeepAllOps(lines: seq<string>, side: Side, n: nat)
    ensures Image(KeepAll(lines), side) == lines
    ensures Own(KeepAll(lines), side) == [] && OwnNos(KeepAll(lines), side, n) == []
  {
    if lines == [] {
    } else {
      KeepAllOps(lines[1..], side, n + 1);
      assert KeepAll(lines)[1..] == KeepAll(lines[1..]);
    }
  }

  // ---- the hunk header ----

  lemma DigitsRead(line: string, i: nat, n: nat)
    requires HasAt(line, i, ShowNat(n))
    requires i + |ShowNat(n)| < |line| && !IsDigit(line[i + |ShowNat(n)|])
    ensures DigitsEnd(line, i) == i + |ShowNat(n)|
  {
    var ds := ShowNat(n);
    forall k | i <= k < i + |ds| ensures IsDigit(line[k]) {
      HasAtChar(line, i, ds, k - i);
    }
    DigitsEndIs(line, i, i + |ds|);
  }

  lemma RangeReadShort(line: string, i: nat, n: nat)
    requires HasAt(line, i, ShowNat(n))
    requires i + |ShowNat(n)| < |line| && line[i + |ShowNat(n)|] == ' '
    ensures RangeAt(line, i) == Some((n, i + |ShowNat(n)|))
  {
    DigitsRead(line, i, n);
    ParseShow(n);
  }

  lemma HasAtIs(s: string, i: nat, pat: string)
    requires HasAt(s, i, pat)
    ensures i + |pat| <= |s| && s[i..i + |pat|] == pat
  {}

  lemma RangeReadLong(line: string, i: nat, j: nat, n: nat, count: nat)
    requires HasAt(line, i, ShowNat(n)) && j == i + |ShowNat(n)| < |line| && line[j] == ','
    requires HasAt(line, j + 1, ShowNat(count))
    requires j + 1 + |ShowNat(count)| < |line| && line[j + 1 + |ShowNat(count)|] == ' '
    ensures RangeAt(line, i) == Some((n, j + 1 + |ShowNat(count)|))
  {
    hide HasAt, ShowNat, ParseNat, DigitsEnd;
    DigitsRead(line, i, n);
    DigitsRead(line, j + 1, count);
    HasAtIs(line, i, ShowNat(n));
    var ds := line[i..j];
    assert ds == ShowNat(n);
    ParseShow(n);
  }

  lemma RangeRead(line: string, i: nat, before: nat, count: nat)
    requires HasAt(line, i, Range(before, count))
    requires i + |Range(before, count)| < |line| && line[i + |Range(before, count)|] == ' '
    ensures RangeAt(line, i) == Some((FirstLine(before, count), i + |Range(before, count)|))
  {
    var n := FirstLine(before, count);
    if count == 1 {
      RangeReadShort(line, i, n);
    } else {
      var first, second := ShowNat(n), ShowNat(count);
      assert Range(before, count) == first + "," + second;
      HasAtSplit(line, i, first + ",", second);
      HasAtSplit(line, i, first, ",");
      HasAtChar(line, i + |first|, ",", 0);
      RangeReadLong(line, i, i + |first|, n, count);
    }
  }

  lemma HunkRoundTrip(b: Block, before: nat, after: nat)
    ensures HunkStart(HunkLine(b, before, after))
         == Some((FirstLine(before, |Image(b.ops, Old)|), FirstLine(after, |Image(b.ops, New)|)))
  {
    var c1, c2 := |Image(b.ops, Old)|, |Image(b.ops, New)|;
    var r1, r2 := Range(before, c1), Range(after, c2);
    HunkShape(r1, r2, b.heading);
    var line := HunkLine(b, before, after);
    HasAtChar(line, 4 + |r1|, " +", 0);
    RangeRead(line, 4, before, c1);
    HasAtChar(line, 6 + |r1| + |r2|, " @@", 0);
    RangeRead(line, 6 + |r1|, after, c2);
  }

  lemma HunkShape(r1: string, r2: string, heading: string)
    ensures var line := "@@ -" + r1 + " +" + r2 + " @@" + heading;
            HasAt(line, 0, "@@ -") && HasAt(line, 4, r1) && HasAt(line, 4 + |r1|, " +")
            && HasAt(line, 6 + |r1|, r2) && HasAt(line, 6 + |r1| + |r2|, " @@")
  {
    var line := "@@ -" + r1 + " +" + r2 + " @@" + heading;
    var front := "@@ -" + r1 + " +" + r2 + " @@";
    assert HasAt(line, 0, front);
    HasAtSplit(line, 0, "@@ -" + r1 + " +" + r2, " @@");
    HasAtSplit(line, 0, "@@ -" + r1 + " +", r2);
    HasAtSplit(line, 0, "@@ -" + r1, " +");
    HasAtSplit(line, 0, "@@ -", r1);
  }

  // ---- the body of a hunk ----

  function After(st: ReaderState, seen: seq<Op>): ReaderState {
    st.(removed := st.removed + Own(seen, Old),
        removedNos := st.removedNos + OwnNos(seen, Old, st.oldLine),
        added := st.added + Own(seen, New),
        addedNos := st.addedNos + OwnNos(seen, New, st.newLine),
        oldLine := st.oldLine + |Image(seen, Old)|,
        newLine := st.newLine + |Image(seen, New)|)
  }

  lemma AfterNone(st: ReaderState)
    ensures After(st, []) == st
  {
    assert st.removed + [] == st.removed && st.added + [] == st.added;
    assert st.removedNos + [] == st.removedNos && st.addedNos + [] == st.addedNos;
  }

  lemma AfterAppend(st: ReaderState, a: seq<Op>, b: seq<Op>)
    ensures After(After(st, a), b) == After(st, a + b)
  {
    ImageAppend(a, b, Old);
    ImageAppend(a, b, New);
    OwnAppend(a, b, Old);
    OwnAppend(a, b, New);
    NosAppend(a, b, Old, st.oldLine);
    NosAppend(a, b, New, st.newLine);
    var st1 := After(st, a);
    Assoc(st.removed, Own(a, Old), Own(b, Old));
    Assoc(st.added, Own(a, New), Own(b, New));
    Assoc(st.removedNos, OwnNos(a, Old, st.oldLine), OwnNos(b, Old, st1.oldLine));
    Assoc(st.addedNos, OwnNos(a, New, st.newLine), OwnNos(b, New, st1.newLine));
  }

  lemma MarkedPrefix(mark: char, t: string, twice: string)
    requires twice == [mark, mark]
    ensures StartsWith([mark] + t, [mark] + twice) <==> StartsWith(t, twice)
    ensures StartsWith([mark] + t, [mark]) && ([mark] + t)[1..] == t
  {
    HasAtSplit([mark] + t, 0, [mark], twice);
    assert HasAt([mark] + t, 1, twice) <==> HasAt(t, 0, twice) by {
      if |t| >= 2 { assert ([mark] + t)[1..3] == t[0..2]; }
    }
  }

  lemma OtherStart(line: string, pat: string)
    requires line != [] && pat != [] && line[0] != pat[0]
    ensures !StartsWith(line, pat)
  {
    assert |pat| <= |line| ==> line[0..|pat|][0] == line[0];
  }

  lemma SeenOne(op: Op)
    ensures Seen([op]) == if Visible(op) then [op] else []
  {
    assert [op][1..] == [];
  }

  lemma BodyStep(st: ReaderState, op: Op)
    ensures Step(st, BodyLine(op)) == After(st, Seen([op]))
  {
    hide Step, After, Seen, BodyLine;
    SeenOne(op);
    AfterNone(st);
    match op
    case Keep(t) => KeepStep(st, t);
    case NoEol => NoEolStep(st);
    case Del(t) => DelStep(st, t);
    case Ins(t) => InsStep(st, t);
  }

  lemma KeepStep(st: ReaderState, t: string)
    ensures Visible(Keep(t)) && Step(st, BodyLine(Keep(t))) == After(st, [Keep(t)])
  {
    hide HunkStart, HeaderPath, StartsWith;
    var line := BodyLine(Keep(t));
    OtherStart(line, GIT_HEADER);
    OtherStart(line, "@@");
    OtherStart(line, "+++");
    OtherStart(line, "---");
    OtherStart(line, "\\");
    OtherStart(line, "+");
    OtherStart(line, "-");
    AfterOne(st, Keep(t));
  }

  lemma NoEolStep(st: ReaderState)
    ensures Visible(NoEol) && Step(st, BodyLine(NoEol)) == After(st, [NoEol])
  {
    hide HunkStart, HeaderPath;
    var line := BodyLine(NoEol);
    OtherStart(line, GIT_HEADER);
    OtherStart(line, "+++");
    OtherStart(line, "---");
    AfterOne(st, NoEol);
  }

  lemma DelStep(st: ReaderState, t: string)
    ensures Step(st, BodyLine(Del(t))) == if Visible(Del(t)) then After(st, [Del(t)]) else st
  {
    hide HunkStart, HeaderPath, StartsWith;
    var line := BodyLine(Del(t));
    OtherStart(line, GIT_HEADER);
    OtherStart(line, "@@");
    MarkedPrefix('-', t, "--");
    assert ['-'] + "--" == "---";
    OtherStart(line, "+++");
    OtherStart(line, "\\");
    OtherStart(line, "+");
    AfterOne(st, Del(t));
  }

  lemma InsStep(st: ReaderState, t: string)
    ensures Step(st, BodyLine(Ins(t))) == if Visible(Ins(t)) then After(st, [Ins(t)]) else st
  {
    hide HunkStart, HeaderPath, StartsWith;
    var line := BodyLine(Ins(t));
    OtherStart(line, GIT_HEADER);
    OtherStart(line, "@@");
    MarkedPrefix('+', t, "++");
    assert ['+'] + "++" == "+++";
    OtherStart(line, "---");
    OtherStart(line, "\\");
    AfterOne(st, Ins(t));
  }

  lemma OneOp(op: Op, side: Side, n: nat)
    ensures Own([op], side) == if Owned(op, side) then [op.text] else []
    ensures OwnNos([op], side, n) == if Owned(op, side) then [n] else []
    ensures |Image([op], side)| == if op.Keep? || Owned(op, side) then 1 else 0
  {
    assert [op][1..] == [];
    assert Own([], side) == [] && Image([], side) == [];
  }

  lemma AfterOne(st: ReaderState, op: Op)
    ensures After(st, [op]) == match op
      case Keep(_) => st.(oldLine := st.oldLine + 1, newLine := st.newLine + 1)
      case Del(t) => st.(removed := st.removed + [t], removedNos := st.removedNos + [st.oldLine], oldLine := st.oldLine + 1)
      case Ins(t) => st.(added := st.added + [t], addedNos := st.addedNos + [st.newLine], newLine := st.newLine + 1)
      case NoEol => st
  {
    OneOp(op, Old, st.oldLine);
    OneOp(op, New, st.newLine);
    assert st.removed + [] == st.removed && st.added + [] == st.added;
    assert st.removedNos + [] == st.removedNos && st.addedNos + [] == st.addedNos;
  }

  lemma {:induction false} BodyRun(st: ReaderState, ops: seq<Op>)
    ensures Run(st, Body(ops)) == After(st, Seen(ops))
    decreases |ops|
  {
    if ops == [] {
      AfterNone(st);
    } else {
      var st1 := Step(st, BodyLine(ops[0]));
      var head, rest := Seen([ops[0]]), Seen(ops[1..]);
      BodyStep(st, ops[0]);
      BodyRun(st1, ops[1..]);
      assert Body(ops)[0] == BodyLine(ops[0]) && Body(ops)[1..] == Body(ops[1..]);
      assert Seen(ops) == head + rest by { SeenOne(ops[0]); }
      AfterAppend(st, head, rest);
    }
  }

  // ---- hunks, files and whole diffs ----

  lemma {:induction false} SeenWithin(ops: seq<Op>, side: Side)
    ensures |Image(Seen(ops), side)| <= |Image(ops, side)|
  {
    if ops == [] {
    } else {
      SeenWithin(ops[1..], side);
      SeenOne(ops[0]);
      assert Seen(ops) == Seen([ops[0]]) + Seen(ops[1..]);
      ImageAppend(Seen([ops[0]]), Seen(ops[1..]), side);
    }
  }

  lemma {:induction false} EmptyImageNoNos(ops: seq<Op>, side: Side, n: nat)
    requires Image(ops, side) == []
    ensures OwnNos(ops, side, n) == []
  {
    if ops == [] {
    } else {
      assert Image([], side) == [];
      EmptyImageNoNos(ops[1..], side, n);
    }
  }

  /** The start number of an empty range is one lower, but nothing on that side is numbered by it. */
  lemma StartNumber(ops: seq<Op>, side: Side, before: nat)
    ensures OwnNos(Seen(ops), side, FirstLine(before, |Image(ops, side)|)) == OwnNos(Seen(ops), side, before + 1)
  {
    if Image(ops, side) == [] {
      SeenWithin(ops, side);
      EmptyImageNoNos(Seen(ops), side, before);
      EmptyImageNoNos(Seen(ops), side, before + 1);
    }
  }

  lemma HunkStep(st: ReaderState, b: Block, before: nat, after: nat)
    ensures Step(st, HunkLine(b, before, after))
         == st.(oldLine := FirstLine(before, |Image(b.ops, Old)|), newLine := FirstLine(after, |Image(b.ops, New)|))
  {
    var line := HunkLine(b, before, after);
    HunkRoundTrip(b, before, after);
    assert line[0] == '@' && line[0..2] == "@@";
    OtherStart(line, GIT_HEADER);
    OtherStart(line, "+++");
    OtherStart(line, "---");
    OtherStart(line, "\\");
  }

  /** `st` has grown by the report of `blocks`; the counters may be anything. */
  predicate Grown(st: ReaderState, st1: ReaderState, blocks: seq<Block>, before: nat, after: nat) {
    st1.files == st.files && st1.path == st.path
    && st1.removed == st.removed + Own(SeenBlocks(blocks), Old)
    && st1.added == st.added + Own(SeenBlocks(blocks), New)
    && st1.removedNos == st.removedNos + SeenNos(blocks, Old, before)
    && st1.addedNos == st.addedNos + SeenNos(blocks, New, after)
  }

  lemma OneBlock(st: ReaderState, b: Block, before: nat, after: nat)
    ensures Grown(st, Run(st, [HunkLine(b, before + |b.gap|, after + |b.gap|)] + Body(b.ops)), [b], before, after)
  {
    hide Grown, HunkLine, Step, Body, After;
    var o, n := before + |b.gap|, after + |b.gap|;
    var line := HunkLine(b, o, n);
    HunkStep(st, b, o, n);
    RunCons(st, line, Body(b.ops));
    BodyRun(Step(st, line), b.ops);
    BlockGrown(st, b, before, after);
  }

  lemma RunCons(st: ReaderState, line: string, rest: seq<string>)
    ensures Run(st, [line] + rest) == Run(Step(st, line), rest)
  {
    assert ([line] + rest)[1..] == rest;
  }

  lemma BlockGrown(st: ReaderState, b: Block, before: nat, after: nat)
    ensures var o, n := before + |b.gap|, after + |b.gap|;
            var st1 := st.(oldLine := FirstLine(o, |Image(b.ops, Old)|), newLine := FirstLine(n, |Image(b.ops, New)|));
            Grown(st, After(st1, Seen(b.ops)), [b], before, after)
  {
    var o, n := before + |b.gap|, after + |b.gap|;
    StartNumber(b.ops, Old, o);
    StartNumber(b.ops, New, n);
    SeenSingle(b, Old, before);
    SeenSingle(b, New, after);
  }

  lemma SeenSingle(b: Block, side: Side, before: nat)
    ensures SeenBlocks([b]) == Seen(b.ops)
    ensures SeenNos([b], side, before) == OwnNos(Seen(b.ops), side, before + |b.gap| + 1)
  {
    hide OwnNos, Seen, Image;
    assert [b][1..] == [];
    assert SeenBlocks([b]) == Seen(b.ops) + [];
    assert SeenNos([b], side, before) == OwnNos(Seen(b.ops), side, before + |b.gap| + 1) + [];
  }

  lemma GrownTwice(st: ReaderState, st1: ReaderState, st2: ReaderState, blocks: seq<Block>, before: nat, after: nat)
    requires blocks != []
    requires Grown(st, st1, [blocks[0]], before, after)
    requires var b := blocks[0];
             Grown(st1, st2, blocks[1..], before + |b.gap| + |Image(b.ops, Old)|, after + |b.gap| + |Image(b.ops, New)|)
    ensures Grown(st, st2, blocks, before, after)
  {
    hide Own, OwnNos, Image, Seen, SeenBlocks, SeenNos;
    LinesTwice(st.removed, blocks, Old);
    LinesTwice(st.added, blocks, New);
    NosTwice(st.removedNos, blocks, Old, before);
    NosTwice(st.addedNos, blocks, New, after);
  }

  lemma LinesTwice(lines: seq<string>, blocks: seq<Block>, side: Side)
    requires blocks != []
    ensures lines + Own(SeenBlocks([blocks[0]]), side) + Own(SeenBlocks(blocks[1..]), side)
         == lines + Own(SeenBlocks(blocks), side)
  {
    var seen, rest := Seen(blocks[0].ops), SeenBlocks(blocks[1..]);
    SeenSingle(blocks[0], side, 0);
    OwnAppend(seen, rest, side);
    Assoc(lines, Own(seen, side), Own(rest, side));
  }

  lemma SeenNosStep(blocks: seq<Block>, side: Side, before: nat)
    requires blocks != []
    ensures var b := blocks[0];
            SeenNos(blocks, side, before) ==
              OwnNos(Seen(b.ops), side, before + |b.gap| + 1)
              + SeenNos(blocks[1..], side, before + |b.gap| + |Image(b.ops, side)|)
  {
    hide OwnNos, Seen, Image;
  }

  lemma {:induction false} NosTwice(nos: seq<nat>, blocks: seq<Block>, side: Side, before: nat)
    requires blocks != []
    ensures nos + SeenNos([blocks[0]], side, before)
              + SeenNos(blocks[1..], side, before + |blocks[0].gap| + |Image(blocks[0].ops, side)|)
         == nos + SeenNos(blocks, side, before)
  {
    hide OwnNos, Seen, Image, SeenNos;
    var b := blocks[0];
    SeenSingle(b, side, before);
    SeenNosStep(blocks, side, before);
    var own := OwnNos(Seen(b.ops), side, before + |b.gap| + 1);
    Assoc(nos, own, SeenNos(blocks[1..], side, before + |b.gap| + |Image(b.ops, side)|));
  }

  lemma NothingGrows(st: ReaderState, before: nat, after: nat)
    ensures Grown(st, Run(st, BlockLines([], before, after)), [], before, after)
  {
    assert SeenBlocks([]) == [];
  }

  lemma {:induction false} BlocksRun(st: ReaderState, blocks: seq<Block>, before: nat, after: nat)
    ensures Grown(st, Run(st, BlockLines(blocks, before, after)), blocks, before, after)
    decreases |blocks|
  {
    hide HunkLine, Step, Body, BlockLines, Grown, Image, Run;
    if blocks == [] {
      NothingGrows(st, before, after);
    } else {
      var st1 := BlocksSplit(st, blocks, before, after);
      var b := blocks[0];
      var o, n := before + |b.gap| + |Image(b.ops, Old)|, after + |b.gap| + |Image(b.ops, New)|;
      BlocksRun(st1, blocks[1..], o, n);
      GrownTwice(st, st1, Run(st1, BlockLines(blocks[1..], o, n)), blocks, before, after);
    }
  }

  /** The state after the first block, from which the other blocks are read. */
  lemma {:induction false} BlocksSplit(st: ReaderState, blocks: seq<Block>, before: nat, after: nat) returns (st1: ReaderState)
    requires blocks != []
    ensures Grown(st, st1, [blocks[0]], before, after)
    ensures var b := blocks[0];
            var o, n := before + |b.gap| + |Image(b.ops, Old)|, after + |b.gap| + |Image(b.ops, New)|;
            Run(st, BlockLines(blocks, before, after)) == Run(st1, BlockLines(blocks[1..], o, n))
  {
    hide Grown, HunkLine, Step, Body, Run;
    var b := blocks[0];
    var o, n := before + |b.gap|, after + |b.gap|;
    var first := [HunkLine(b, o, n)] + Body(b.ops);
    st1 := Run(st, first);
    OneBlock(st, b, before, after);
    RunAppend(st, first, BlockLines(blocks[1..], o + |Image(b.ops, Old)|, n + |Image(b.ops, New)|));
  }

  lemma {:induction false} MetaRun(st: ReaderState, meta: seq<string>)
    requires forall m :: m in meta ==> InertMeta(m)
    ensures Grown(st, Run(st, meta), [], 0, 0)
    decreases |meta|
  {
    if meta == [] {
    } else {
      var line := meta[0];
      var st1 := Step(st, line);
      assert InertMeta(line);
      PlusIsPrefix(line, "+");
      PlusIsPrefix(line, "-");
      assert Grown(st, st1, [], 0, 0);
      forall m | m in meta[1..] ensures InertMeta(m) {
        assert m in meta;
      }
      MetaRun(st1, meta[1..]);
    }
  }

  lemma PlusIsPrefix(line: string, mark: string)
    requires |mark| == 1
    ensures StartsWith(line, mark + mark + mark) ==> StartsWith(line, mark)
  {
    HasAtSplit(line, 0, mark + mark, mark);
    HasAtSplit(line, 0, mark, mark);
  }

  lemma HeaderShape(oldPath: string, newPath: string)
    ensures var line := Header(oldPath, newPath);
            StartsWith(line, GIT_HEADER) && StartsWith(line, "diff --git a/")
            && HasAt(line, 13 + |oldPath|, " b/") && line[16 + |oldPath|..] == newPath && |line| == 16 + |oldPath| + |newPath|
  {
    var line := Header(oldPath, newPath);
    assert line[0..11] == GIT_HEADER;
    assert line[0..13] == "diff --git a/";
    assert line[13 + |oldPath|..16 + |oldPath|] == " b/";
  }

  /** The path of a header is always found, and it is the new path or a longer cut of the line. */
  lemma HeaderHasPath(oldPath: string, newPath: string)
    requires oldPath != "" && newPath != ""
    ensures HeaderPath(Header(oldPath, newPath)).Some?
  {
    HeaderShape(oldPath, newPath);
  }

  function HeadPath(c: FileChange): string
    requires WellFormed(c)
  {
    HeaderHasPath(c.oldPath, c.newPath);
    HeaderPath(Header(c.oldPath, c.newPath)).value
  }

  lemma FileRun(st: ReaderState, c: FileChange)
    requires WellFormed(c)
    ensures Flush(Run(st, FileLines(c))) == Flush(st) + [Report(c, HeadPath(c))]
  {
    hide Run, BlockLines, Header, HeadPath, SeenBlocks, SeenNos, Own;
    var st1 := FileHeadRun(st, c);
    var blockLines := BlockLines(c.blocks, 0, 0);
    var dashes, pluses := "--- a/" + c.oldPath, "+++ b/" + c.newPath;
    var head := [Header(c.oldPath, c.newPath)] + c.meta + [dashes, pluses];
    RunAppend(st, head, blockLines);
    assert FileLines(c) == head + blockLines;
    BlocksRun(st1, c.blocks, 0, 0);
    var st2 := Run(st1, blockLines);
    assert st2.removed == Own(SeenBlocks(c.blocks), Old) && st2.added == Own(SeenBlocks(c.blocks), New);
    assert st2.removedNos == SeenNos(c.blocks, Old, 0) && st2.addedNos == SeenNos(c.blocks, New, 0);
  }

  lemma FileHeadRun(st: ReaderState, c: FileChange) returns (st1: ReaderState)
    requires WellFormed(c)
    ensures st1 == Run(st, [Header(c.oldPath, c.newPath)] + c.meta + ["--- a/" + c.oldPath, "+++ b/" + c.newPath])
    ensures st1.files == Flush(st) && st1.path == Some(HeadPath(c))
    ensures st1.removed == [] && st1.added == [] && st1.removedNos == [] && st1.addedNos == []
  {
    var header := Header(c.oldPath, c.newPath);
    HeaderShape(c.oldPath, c.newPath);
    HeaderHasPath(c.oldPath, c.newPath);
    var st0 := Step(st, header);
    assert SeenBlocks([]) == [];
    RunCons(st, header, c.meta);
    st1 := Run(st0, c.meta);
    MetaRun(st0, c.meta);
    var dashes, pluses := "--- a/" + c.oldPath, "+++ b/" + c.newPath;
    assert dashes[0..3] == "---" && pluses[0..3] == "+++";
    FileMarkStep(st1, dashes, "---");
    FileMarkStep(st1, pluses, "+++");
    RunOne(st, [header] + c.meta, dashes);
    RunOne(st, [header] + c.meta + [dashes], pluses);
    assert [header] + c.meta + [dashes] + [pluses] == [header] + c.meta + [dashes, pluses];
  }

  lemma FileMarkStep(st: ReaderState, line: string, mark: string)
    requires StartsWith(line, mark) && (mark == "---" || mark == "+++")
    ensures Step(st, line) == st
  {
    HasAtChar(line, 0, mark, 0);
    OtherStart(line, GIT_HEADER);
  }

  function Reports(changes: seq<FileChange>): seq<FileDiff>
    requires forall c :: c in changes ==> WellFormed(c)
  {
    if changes == [] then []
    else
      assert changes[0] in changes;
      [Report(changes[0], HeadPath(changes[0]))] + Reports(changes[1..])
  }

  lemma DiffLinesStep(changes: seq<FileChange>)
    requires changes != [] && forall c :: c in changes ==> WellFormed(c)
    ensures DiffLines(changes) == FileLines(changes[0]) + DiffLines(changes[1..])
    ensures changes[0] in changes
    ensures Reports(changes) == [Report(changes[0], HeadPath(changes[0]))] + Reports(changes[1..])
  {
    hide FileLines, Report, HeadPath;
  }

  lemma {:induction false} DiffRun(st: ReaderState, changes: seq<FileChange>)
    requires forall c :: c in changes ==> WellFormed(c)
    ensures Flush(Run(st, DiffLines(changes))) == Flush(st) + Reports(changes)
    decreases |changes|
  {
    if changes == [] {
    } else {
      hide FileLines, Step, HeadPath, Report, Run, DiffLines, Reports, Flush;
      var c, rest := changes[0], changes[1..];
      DiffLinesStep(changes);
      var st1 := Run(st, FileLines(c));
      FileRun(st, c);
      RunAppend(st, FileLines(c), DiffLines(rest));
      DiffRun(st1, rest);
      Assoc(Flush(st), [Report(c, HeadPath(c))], Reports(rest));
    }
  }
}
