/** When the reader's report is the whole truth about an edit, and what that truth is worth. */
module DiffLaws {
  import opened Wrappers
  import opened Text
  import opened DiffParser
  import opened DiffRoundTrip

  // ---- when nothing is hidden ----

  predicate AllVisible(ops: seq<Op>) {
    forall op :: op in ops ==> Visible(op)
  }

  predicate AllBlocksVisible(blocks: seq<Block>) {
    forall b :: b in blocks ==> AllVisible(b.ops)
  }

  /** The header line can be cut again inside the new path. */
  ghost predicate Recut(path: string) {
    exists k :: HasAt(path, k, " b/") && k + 3 < |path|
  }

  /** No removed text starts with `--`, no added text with `++`, and the path reads back. */
  ghost predicate Faithful(c: FileChange) {
    AllBlocksVisible(c.blocks) && !Recut(c.newPath)
  }

  lemma {:induction false} SeenAll(ops: seq<Op>)
    requires AllVisible(ops)
    ensures Seen(ops) == ops
  {
    if ops == [] {
    } else {
      assert ops[0] in ops;
      SeenAll(ops[1..]);
    }
  }

  /** A hidden line is missing from the report of its side. */
  lemma {:induction false} SeenCount(ops: seq<Op>)
    ensures |Own(Seen(ops), Old)| <= |Own(ops, Old)| && |Own(Seen(ops), New)| <= |Own(ops, New)|
    ensures |Own(Seen(ops), Old)| == |Own(ops, Old)| && |Own(Seen(ops), New)| == |Own(ops, New)| ==> AllVisible(ops)
  {
    if ops == [] {
    } else {
      SeenCount(ops[1..]);
      SeenOne(ops[0]);
      assert Seen(ops) == Seen([ops[0]]) + Seen(ops[1..]);
      OwnAppend(Seen([ops[0]]), Seen(ops[1..]), Old);
      OwnAppend(Seen([ops[0]]), Seen(ops[1..]), New);
      OwnOne(ops[0], Old);
      OwnOne(ops[0], New);
    }
  }

  lemma OwnOne(op: Op, side: Side)
    ensures Own([op], side) == if Owned(op, side) then [op.text] else []
  {
    assert [op][1..] == [];
    assert Own([], side) == [];
  }

  lemma ScriptOwn(blocks: seq<Block>, tail: seq<string>, side: Side)
    requires blocks != []
    ensures Own(Script(blocks, tail), side) == Own(blocks[0].ops, side) + Own(Script(blocks[1..], tail), side)
  {
    hide Own;
    var keeps, ops, rest := KeepAll(blocks[0].gap), blocks[0].ops, Script(blocks[1..], tail);
    KeepAllOps(blocks[0].gap, side, 0);
    OwnAppend(keeps, ops, side);
    OwnAppend(keeps + ops, rest, side);
  }

  lemma ScriptNos(blocks: seq<Block>, tail: seq<string>, side: Side, n: nat)
    requires blocks != []
    ensures var b := blocks[0];
            OwnNos(Script(blocks, tail), side, n)
            == OwnNos(b.ops, side, n + |b.gap|)
             + OwnNos(Script(blocks[1..], tail), side, n + |b.gap| + |Image(b.ops, side)|)
  {
    hide Own, OwnNos, Image;
    var keeps, ops, rest := KeepAll(blocks[0].gap), blocks[0].ops, Script(blocks[1..], tail);
    KeepAllOps(blocks[0].gap, side, n);
    ImageAppend(keeps, ops, side);
    NosAppend(keeps, ops, side, n);
    NosAppend(keeps + ops, rest, side, n);
    assert Script(blocks, tail) == keeps + ops + rest;
    var nos := OwnNos(ops, side, n + |blocks[0].gap|);
    assert [] + nos == nos;
  }

  lemma {:induction false} BlocksCount(blocks: seq<Block>, tail: seq<string>)
    ensures |Own(SeenBlocks(blocks), Old)| <= |Own(Script(blocks, tail), Old)|
    ensures |Own(SeenBlocks(blocks), New)| <= |Own(Script(blocks, tail), New)|
    ensures (|Own(SeenBlocks(blocks), Old)| == |Own(Script(blocks, tail), Old)|
             && |Own(SeenBlocks(blocks), New)| == |Own(Script(blocks, tail), New)|) ==> AllBlocksVisible(blocks)
  {
    if blocks != [] {
      hide Own, Seen, Script;
      BlocksCount(blocks[1..], tail);
      SeenCount(blocks[0].ops);
      OwnAppend(Seen(blocks[0].ops), SeenBlocks(blocks[1..]), Old);
      OwnAppend(Seen(blocks[0].ops), SeenBlocks(blocks[1..]), New);
      ScriptOwn(blocks, tail, Old);
      ScriptOwn(blocks, tail, New);
    } else {
      assert Own(SeenBlocks(blocks), Old) == [] && Own(SeenBlocks(blocks), New) == [];
    }
  }

  lemma {:induction false} BlocksAllOwn(blocks: seq<Block>, tail: seq<string>, side: Side)
    requires AllBlocksVisible(blocks)
    ensures Own(SeenBlocks(blocks), side) == Own(Script(blocks, tail), side)
  {
    if blocks == [] {
      KeepAllOps(tail, side, 0);
      assert SeenBlocks(blocks) == [];
    } else {
      var b := blocks[0];
      assert b in blocks;
      SeenAll(b.ops);
      hide Own, Seen, Script, Visible;
      OwnAppend(b.ops, SeenBlocks(blocks[1..]), side);
      BlocksAllOwn(blocks[1..], tail, side);
      ScriptOwn(blocks, tail, side);
    }
  }

  lemma FirstIsVisible(blocks: seq<Block>)
    requires blocks != [] && AllBlocksVisible(blocks)
    ensures Seen(blocks[0].ops) == blocks[0].ops && AllBlocksVisible(blocks[1..])
  {
    assert blocks[0] in blocks && forall b :: b in blocks[1..] ==> b in blocks;
    SeenAll(blocks[0].ops);
  }

  lemma {:induction false} BlocksAllNos(blocks: seq<Block>, tail: seq<string>, side: Side, before: nat)
    requires AllBlocksVisible(blocks)
    ensures SeenNos(blocks, side, before) == OwnNos(Script(blocks, tail), side, before + 1)
  {
    hide OwnNos, Own, Image, Seen, AllBlocksVisible, SeenNos, Script;
    if blocks == [] {
      NothingSeen(tail, side, before);
    } else {
      var b := blocks[0];
      var next := before + |b.gap| + |Image(b.ops, side)|;
      FirstIsVisible(blocks);
      SeenNosStep(blocks, side, before);
      BlocksAllNos(blocks[1..], tail, side, next);
      ScriptNos(blocks, tail, side, before + 1);
      assert before + 1 + |b.gap| == before + |b.gap| + 1 && before + 1 + |b.gap| + |Image(b.ops, side)| == next + 1;
    }
  }

  lemma NothingSeen(tail: seq<string>, side: Side, before: nat)
    ensures SeenNos([], side, before) == OwnNos(Script([], tail), side, before + 1)
  {
    KeepAllOps(tail, side, before + 1);
  }

  // ---- the hunk line ----

  /** A numeral for `n`, or that and a count behind a comma. */
  predicate IsRange(r: string, n: nat) {
    (IsNumeral(r) && ParseNat(r) == n) ||
    exists k :: 0 <= k < |r| && r[k] == ',' && IsNumeral(r[..k]) && ParseNat(r[..k]) == n && IsNumeral(r[k + 1..])
  }

  predicate IsHunkLine(line: string, r1: string, r2: string, rest: string) {
    line == "@@ -" + r1 + " +" + r2 + " @@" + rest
  }

  lemma NumeralEnds(line: string, i: nat, j: nat)
    requires i <= j < |line| && IsNumeral(line[i..j]) && !IsDigit(line[j])
    ensures DigitsEnd(line, i) == j && i < j
  {
    hide IsDigit;
    var t := line[i..j];
    assert forall k :: i <= k < j ==> line[k] == t[k - i];
    DigitsEndIs(line, i, j);
  }

  lemma ShortRange(line: string, i: nat, j: nat, n: nat)
    requires i < j < |line| && DigitsEnd(line, i) == j && line[j] == ' ' && IsNumeral(line[i..j]) && ParseNat(line[i..j]) == n
    ensures RangeAt(line, i) == Some((n, j))
  {
    hide ParseNat, DigitsEnd;
  }

  lemma LongRange(line: string, i: nat, m: nat, j: nat, n: nat)
    requires i < m && m + 1 < j < |line| && DigitsEnd(line, i) == m && line[m] == ',' && DigitsEnd(line, m + 1) == j
    requires IsNumeral(line[i..m]) && ParseNat(line[i..m]) == n
    ensures RangeAt(line, i) == Some((n, j))
  {
    hide ParseNat, DigitsEnd;
  }

  lemma SliceOfSlice(line: string, i: nat, j: nat, k: nat)
    requires i + k < j <= |line|
    ensures var r := line[i..j]; r[k] == line[i + k] && r[..k] == line[i..i + k] && r[k + 1..] == line[i + k + 1..j]
  {}

  lemma MarksAreNoDigits()
    ensures !IsDigit(',') && !IsDigit(' ')
  {}

  lemma RangeIsRead(line: string, i: nat, j: nat, n: nat)
    requires i <= j < |line| && IsRange(line[i..j], n) && line[j] == ' '
    ensures RangeAt(line, i) == Some((n, j))
  {
    hide ParseNat, DigitsEnd, RangeAt, IsDigit;
    var r := line[i..j];
    MarksAreNoDigits();
    if IsNumeral(r) && ParseNat(r) == n {
      NumeralEnds(line, i, j);
      ShortRange(line, i, j, n);
    } else {
      var k :| 0 <= k < |r| && r[k] == ',' && IsNumeral(r[..k]) && ParseNat(r[..k]) == n && IsNumeral(r[k + 1..]);
      SliceOfSlice(line, i, j, k);
      NumeralEnds(line, i, i + k);
      NumeralEnds(line, i + k + 1, j);
      LongRange(line, i, i + k, j, n);
    }
  }

  lemma RangeIsSpelled(line: string, i: nat)
    requires i <= |line| && RangeAt(line, i).Some?
    ensures var (n, j) := RangeAt(line, i).value; i < j <= |line| && IsRange(line[i..j], n)
  {
    hide ParseNat;
    var j := DigitsEnd(line, i);
    var first := line[i..j];
    assert forall k :: 0 <= k < |first| ==> first[k] == line[i + k];
    if j < |line| && line[j] == ',' && DigitsEnd(line, j + 1) > j + 1 {
      var e := DigitsEnd(line, j + 1);
      var r, second := line[i..e], line[j + 1..e];
      assert forall k :: 0 <= k < |second| ==> second[k] == line[j + 1 + k];
      assert r[j - i] == ',' && r[..j - i] == first && r[j - i + 1..] == second;
      assert IsNumeral(r[..j - i]) && IsNumeral(r[j - i + 1..]);
    }
  }

  /** A line is a hunk's exactly when it is spelled like one, and then these are its start numbers. */
  lemma HunkIff(line: string, o: nat, n: nat)
    ensures HunkStart(line) == Some((o, n)) <==>
      exists r1, r2, rest :: IsHunkLine(line, r1, r2, rest) && IsRange(r1, o) && IsRange(r2, n)
  {
    hide RangeAt, IsRange, HasAt;
    if HunkStart(line) == Some((o, n)) {
      RangeIsSpelled(line, 4);
      var j := RangeAt(line, 4).value.1;
      RangeIsSpelled(line, j + 2);
      var k := RangeAt(line, j + 2).value.1;
      HasAtIs(line, 0, "@@ -");
      HasAtIs(line, j, " +");
      HasAtIs(line, k, " @@");
      assert IsHunkLine(line, line[4..j], line[j + 2..k], line[k + 3..]);
    }
    if r1, r2, rest :| IsHunkLine(line, r1, r2, rest) && IsRange(r1, o) && IsRange(r2, n) {
      SpelledHunk(r1, r2, rest, o, n);
    }
  }

  lemma SpelledHunk(r1: string, r2: string, rest: string, o: nat, n: nat)
    requires IsRange(r1, o) && IsRange(r2, n)
    ensures HunkStart("@@ -" + r1 + " +" + r2 + " @@" + rest) == Some((o, n))
  {
    hide RangeAt, IsRange, HasAt;
    var line := "@@ -" + r1 + " +" + r2 + " @@" + rest;
    HunkShape(r1, r2, rest);
    var j, k := 4 + |r1|, 6 + |r1| + |r2|;
    HasAtIs(line, 4, r1);
    HasAtIs(line, j + 2, r2);
    HasAtChar(line, j, " +", 0);
    HasAtChar(line, k, " @@", 0);
    RangeIsRead(line, 4, j, o);
    RangeIsRead(line, j + 2, k, n);
  }

  // ---- the path in the header ----

  lemma HeaderOffset(oldPath: string, newPath: string, k: int)
    ensures HasAt(newPath, k, " b/") ==> HasAt(Header(oldPath, newPath), 16 + |oldPath| + k, " b/")
    ensures HasAt(Header(oldPath, newPath), 16 + |oldPath| + k, " b/") && k >= 0 ==> HasAt(newPath, k, " b/")
  {
    HeaderShape(oldPath, newPath);
    var line, d := Header(oldPath, newPath), 16 + |oldPath|;
    if 0 <= k <= |newPath| - 3 {
      assert line[d..][k..k + 3] == line[d + k..d + k + 3];
    }
  }

  lemma PathReadsBack(oldPath: string, newPath: string)
    requires oldPath != "" && newPath != ""
    ensures HeaderPath(Header(oldPath, newPath)) == Some(newPath) <==> !Recut(newPath)
  {
    var line, sep := Header(oldPath, newPath), 13 + |oldPath|;
    HeaderShape(oldPath, newPath);
    var i := LastSplit(line, |line|).value;
    if Recut(newPath) {
      var k :| HasAt(newPath, k, " b/") && k + 3 < |newPath|;
      HeaderOffset(oldPath, newPath, k);
      assert i > sep;
      assert |line[i + 3..]| < |newPath|;
    } else if i > sep {
      HasAtChar(line, i, " b/", 0);
      HasAtChar(line, sep, " b/", 1);
      HasAtChar(line, sep, " b/", 2);
      assert i >= sep + 3;
      HeaderOffset(oldPath, newPath, i - sep - 3);
      assert Recut(newPath);
    }
  }

  // ---- the round trip, exactly ----

  function Truths(changes: seq<FileChange>): (r: seq<FileDiff>)
    ensures |r| == |changes|
  {
    if changes == [] then [] else [Truth(changes[0])] + Truths(changes[1..])
  }

  lemma {:induction false} ReportIsTruth(c: FileChange)
    requires WellFormed(c)
    ensures Report(c, HeadPath(c)) == Truth(c) <==> Faithful(c)
  {
    PathReadsBack(c.oldPath, c.newPath);
    HeaderHasPath(c.oldPath, c.newPath);
    BlocksCount(c.blocks, c.tail);
    if AllBlocksVisible(c.blocks) {
      BlocksAllOwn(c.blocks, c.tail, Old);
      BlocksAllOwn(c.blocks, c.tail, New);
      BlocksAllNos(c.blocks, c.tail, Old, 0);
      BlocksAllNos(c.blocks, c.tail, New, 0);
    }
  }

  lemma {:induction false} ReportsAreTruths(changes: seq<FileChange>)
    requires forall c :: c in changes ==> WellFormed(c)
    ensures Reports(changes) == Truths(changes) <==> forall c :: c in changes ==> Faithful(c)
  {
    if changes == [] {
    } else {
      hide Report, HeadPath, Truth, Faithful;
      assert changes[0] in changes;
      var r, t := [Report(changes[0], HeadPath(changes[0]))] + Reports(changes[1..]), [Truth(changes[0])] + Truths(changes[1..]);
      assert r[0] == Report(changes[0], HeadPath(changes[0])) && t[0] == Truth(changes[0]);
      assert r[1..] == Reports(changes[1..]) && t[1..] == Truths(changes[1..]);
      ReportIsTruth(changes[0]);
      ReportsAreTruths(changes[1..]);
      assert forall c :: c in changes <==> c == changes[0] || c in changes[1..];
    }
  }

  /** The reader recovers every edit of a printed diff exactly when no line of it is hidden. */
  lemma DiffReadsBack(changes: seq<FileChange>)
    requires forall c :: c in changes ==> WellFormed(c)
    ensures FileDiffs(DiffLines(changes)) == Truths(changes) <==> forall c :: c in changes ==> Faithful(c)
  {
    DiffRun(START, changes);
    ReportsAreTruths(changes);
    assert Flush(START) == [];
    assert [] + Reports(changes) == Reports(changes);
  }

  lemma DelNos(x: string, n: nat)
    ensures Own([Del(x)], Old) == [x] && OwnNos([Del(x)], Old, n) == [n]
  {
    assert [Del(x)][1..] == [];
    assert Own([], Old) == [] && OwnNos([], Old, n + 1) == [];
  }

  lemma TwoDels(t: string, x: string)
    ensures Own([Del(t), Del(x)], Old) == [t, x] && OwnNos([Del(t), Del(x)], Old, 1) == [1, 2]
  {
    assert [Del(t), Del(x)][1..] == [Del(x)];
    DelNos(x, 2);
  }

  lemma SeenSecond(t: string, x: string)
    requires Hidden(t, Old) && !Hidden(x, Old)
    ensures Seen([Del(t), Del(x)]) == [Del(x)]
  {
    assert [Del(t), Del(x)][1..] == [Del(x)];
    SeenOne(Del(x));
  }

  /** Removing a line that starts with `--` loses it and gives the next removed line a wrong number. */
  lemma HiddenLineShiftsNumbers(path: string, t: string, x: string)
    requires Hidden(t, Old) && !Hidden(x, Old)
    ensures var c := FileChange(path, path, [], [Block([], [Del(t), Del(x)], "")], []);
            Truth(c).removed == [t, x] && Truth(c).removedNos == [1, 2]
            && Report(c, path).removed == [x] && Report(c, path).removedNos == [1]
  {
    hide Own, OwnNos, Seen;
    var ops := [Del(t), Del(x)];
    var b := Block([], ops, "");
    TwoDels(t, x);
    SeenSecond(t, x);
    DelNos(x, 1);
    SeenSingle(b, Old, 0);
    assert [b][1..] == [];
    assert Script([b], []) == [] + ops + [] == ops;
  }

  // ---- the text of a diff ----

  function Terminated(lines: seq<string>): string {
    if lines == [] then "" else lines[0] + "\n" + Terminated(lines[1..])
  }

  predicate Unbroken(line: string) {
    forall c :: c in line ==> !IsBreak(c)
  }

  lemma BreakAtIs(s: string, j: nat)
    requires j <= |s| && (forall k :: 0 <= k < j ==> !IsBreak(s[k])) && (j < |s| ==> IsBreak(s[j]))
    ensures BreakAt(s, 0) == j
  {
  }

  lemma {:induction false} LinesOfText(lines: seq<string>)
    ensures TextLines(Terminated(lines)) == lines <==> forall l :: l in lines ==> Unbroken(l)
  {
    if forall l :: l in lines ==> Unbroken(l) {
      LinesRecovered(lines);
    }
  }

  lemma {:induction false} LinesRecovered(lines: seq<string>)
    requires forall l :: l in lines ==> Unbroken(l)
    ensures TextLines(Terminated(lines)) == lines
  {
    if lines == [] {
    } else {
      var l, s := lines[0], Terminated(lines);
      assert l in lines;
      forall k | 0 <= k < |l| ensures !IsBreak(s[k]) {
        assert s[k] == l[k] && l[k] in l;
      }
      BreakAtIs(s, |l|);
      assert s[..|l|] == l && s[|l| + 1..] == Terminated(lines[1..]);
      LinesRecovered(lines[1..]);
    }
  }

  // ---- what the truth says ----

  predicate StrictlyIncreasing(nos: seq<nat>) {
    forall i, j :: 0 <= i < j < |nos| ==> nos[i] < nos[j]
  }

  /** Each number is the place of its line in the image. */
  predicate Placed(image: seq<string>, nos: seq<nat>, lines: seq<string>, n: nat) {
    |nos| == |lines| && forall i :: 0 <= i < |nos| ==> n <= nos[i] < n + |image| && image[nos[i] - n] == lines[i]
  }

  lemma PlacedCons(text: string, image: seq<string>, nos: seq<nat>, lines: seq<string>, n: nat)
    requires Placed(image, nos, lines, n + 1) && StrictlyIncreasing(nos)
    ensures Placed([text] + image, nos, lines, n)
    ensures Placed([text] + image, [n] + nos, [text] + lines, n) && StrictlyIncreasing([n] + nos)
  {
  }

  /** The numbers increase and are the places of the lines. */
  lemma {:induction false} NumbersAreReal(ops: seq<Op>, side: Side, n: nat)
    ensures Placed(Image(ops, side), OwnNos(ops, side, n), Own(ops, side), n)
    ensures StrictlyIncreasing(OwnNos(ops, side, n))
  {
    if ops == [] {
    } else {
      hide Placed, StrictlyIncreasing;
      var op, rest := ops[0], ops[1..];
      if Owned(op, side) || op.Keep? {
        NumbersAreReal(rest, side, n + 1);
        PlacedCons(op.text, Image(rest, side), OwnNos(rest, side, n + 1), Own(rest, side), n);
        assert [] + Own(rest, side) == Own(rest, side);
      } else {
        NumbersAreReal(rest, side, n);
        assert [] + Own(rest, side) == Own(rest, side) && [] + Image(rest, side) == Image(rest, side);
      }
    }
  }

  lemma TruthIsReal(c: FileChange)
    ensures var d, pre, post := Truth(c), FileImage(c, Old), FileImage(c, New);
            |d.removed| == |d.removedNos| && |d.added| == |d.addedNos|
            && StrictlyIncreasing(d.removedNos) && StrictlyIncreasing(d.addedNos)
            && (forall i :: 0 <= i < |d.removed| ==> 1 <= d.removedNos[i] <= |pre| && pre[d.removedNos[i] - 1] == d.removed[i])
            && (forall i :: 0 <= i < |d.added| ==> 1 <= d.addedNos[i] <= |post| && post[d.addedNos[i] - 1] == d.added[i])
  {
    var ops := Script(c.blocks, c.tail);
    NumbersAreReal(ops, Old, 1);
    NumbersAreReal(ops, New, 1);
  }

  // ---- replaying the report ----

  /** `pre` without the lines numbered by `nos`, where the first line of `pre` has number `n`. */
  function Survivors(pre: seq<string>, nos: seq<nat>, n: nat): seq<string> {
    if pre == [] then []
    else if nos != [] && nos[0] == n then Survivors(pre[1..], nos[1..], n + 1)
    else [pre[0]] + Survivors(pre[1..], nos, n + 1)
  }

  /** `kept` with `lines[i]` put in as line `nos[i]`, where the next line out has number `n`. */
  function Weave(kept: seq<string>, nos: seq<nat>, lines: seq<string>, n: nat): seq<string>
    requires |nos| == |lines|
    decreases |kept| + |nos|
  {
    if nos != [] && nos[0] == n then [lines[0]] + Weave(kept, nos[1..], lines[1..], n + 1)
    else if kept == [] then []
    else [kept[0]] + Weave(kept[1..], nos, lines, n + 1)
  }

  function Replay(pre: seq<string>, d: FileDiff): seq<string>
    requires |d.addedNos| == |d.added|
  {
    Weave(Survivors(pre, d.removedNos, 1), d.addedNos, d.added, 1)
  }

  lemma {:induction false} SurvivorsAreKept(ops: seq<Op>, n: nat)
    ensures Survivors(Image(ops, Old), OwnNos(ops, Old, n), n) == Keeps(ops)
  {
    if ops == [] {
    } else {
      var op, rest := ops[0], ops[1..];
      SurvivorsAreKept(rest, n);
      SurvivorsAreKept(rest, n + 1);
      if op.Del? || op.Keep? {
        assert Image(ops, Old)[1..] == Image(rest, Old);
      } else {
        assert Image(ops, Old) == Image(rest, Old) && Keeps(ops) == Keeps(rest);
      }
      if op.Del? {
        assert OwnNos(ops, Old, n)[1..] == OwnNos(rest, Old, n + 1);
        assert Keeps(ops) == Keeps(rest);
      }
    }
  }

  lemma WeaveUnfolds(kept: seq<string>, nos: seq<nat>, lines: seq<string>, n: nat)
    requires |nos| == |lines|
    ensures Weave(kept, nos, lines, n) ==
      if nos != [] && nos[0] == n then [lines[0]] + Weave(kept, nos[1..], lines[1..], n + 1)
      else if kept == [] then []
      else [kept[0]] + Weave(kept[1..], nos, lines, n + 1)
  {}

  lemma {:induction false} WeaveGivesPost(ops: seq<Op>, n: nat)
    ensures Weave(Keeps(ops), OwnNos(ops, New, n), Own(ops, New), n) == Image(ops, New)
  {
    if ops == [] {
    } else {
      var op, rest := ops[0], ops[1..];
      hide Weave;
      WeaveUnfolds(Keeps(ops), OwnNos(ops, New, n), Own(ops, New), n);
      if op.Ins? {
        WeaveGivesPost(rest, n + 1);
        assert OwnNos(ops, New, n)[1..] == OwnNos(rest, New, n + 1) && Own(ops, New)[1..] == Own(rest, New);
        assert Keeps(ops) == Keeps(rest);
      } else if op.Keep? {
        WeaveGivesPost(rest, n + 1);
        assert Own(ops, New) == Own(rest, New) && Keeps(ops)[1..] == Keeps(rest);
      } else {
        WeaveGivesPost(rest, n);
        assert Own(ops, New) == Own(rest, New) && Keeps(ops) == Keeps(rest) && Image(ops, New) == Image(rest, New);
      }
    }
  }

  /** The report of a faithful edit rebuilds the post-image from the pre-image alone. */
  lemma ReplayRebuildsPost(c: FileChange)
    requires WellFormed(c) && Faithful(c)
    ensures FileDiffs(FileLines(c)) == [Truth(c)]
    ensures Replay(FileImage(c, Old), Truth(c)) == FileImage(c, New)
  {
    DiffReadsBack([c]);
    assert DiffLines([c]) == FileLines(c) + [] == FileLines(c);
    assert Truths([c]) == [Truth(c)] + [] == [Truth(c)];
    var ops := Script(c.blocks, c.tail);
    SurvivorsAreKept(ops, 1);
    WeaveGivesPost(ops, 1);
  }
}
