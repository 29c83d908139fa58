/**
  The unified-diff reader: one pass over the lines with two line counters.

  The partner of the reader is a printer for the format of POSIX.1-2017 XCU `diff`, "Diff -u or -U
  Output Format", as git writes it: a file header, meta lines, then hunks.
 */
module DiffParser {
  import opened Wrappers
  import opened Text

  /** One file of a diff as the reader reports it; line numbers count from 1. */
  datatype FileDiff = FileDiff(
    path: string,
    removed: seq<string>,
    added: seq<string>,
    removedNos: seq<nat>,
    addedNos: seq<nat>)

  const GIT_HEADER := "diff --git "

  // ---- the two regular expressions ----

  /** The greatest offset at or below `i` where a second path could begin with ` b/`. */
  function LastSplit(line: string, i: nat): (r: Option<nat>)
    ensures r.Some? ==> 14 <= r.value <= i && HasAt(line, r.value, " b/") && r.value + 3 < |line|
    ensures r.Some? ==> forall k :: r.value < k <= i ==> !(HasAt(line, k, " b/") && k + 3 < |line|)
    ensures r.None? ==> forall k :: 14 <= k <= i ==> !(HasAt(line, k, " b/") && k + 3 < |line|)
  {
    if i < 14 then None
    else if HasAt(line, i, " b/") && i + 3 < |line| then Some(i)
    else LastSplit(line, i - 1)
  }

  /** `diff --git a/(.+) b/(.+)$`: the second group, the first group being greedy. */
  function HeaderPath(line: string): Option<string> {
    if !StartsWith(line, "diff --git a/") then None
    else match LastSplit(line, |line|)
      case None => None
      case Some(i) => Some(line[i + 3..])
  }

  /** `\d+(?:,\d+)?` at `i`: the number and the offset after the range. */
  function RangeAt(line: string, i: nat): (r: Option<(nat, nat)>)
    requires i <= |line|
    ensures r.Some? ==> i < r.value.1 <= |line|
  {
    var j := DigitsEnd(line, i);
    if i == j then None
    else
      var n := ParseNat(line[i..j]);
      if j < |line| && line[j] == ',' && DigitsEnd(line, j + 1) > j + 1
      then Some((n, DigitsEnd(line, j + 1)))
      else Some((n, j))
  }

  /** `^@@ -(\d+)(?:,\d+)? \+(\d+)(?:,\d+)? @@`: the two start numbers. */
  function HunkStart(line: string): Option<(nat, nat)> {
    if !StartsWith(line, "@@ -") then None
    else match RangeAt(line, 4)
      case None => None
      case Some((old_, j)) =>
        if !HasAt(line, j, " +") then None
        else match RangeAt(line, j + 2)
          case None => None
          case Some((new_, k)) => if HasAt(line, k, " @@") then Some((old_, new_)) else None
  }

  // ---- the reader ----

  /** The variables of the loop. */
  datatype ReaderState = ReaderState(
    files: seq<FileDiff>,
    path: Option<string>,
    removed: seq<string>,
    added: seq<string>,
    removedNos: seq<nat>,
    addedNos: seq<nat>,
    oldLine: nat,
    newLine: nat)

  const START := ReaderState([], None, [], [], [], [], 0, 0)

  function Flush(st: ReaderState): seq<FileDiff> {
    if st.path.Some?
    then st.files + [FileDiff(st.path.value, st.removed, st.added, st.removedNos, st.addedNos)]
    else st.files
  }

  function Step(st: ReaderState, line: string): ReaderState {
    if StartsWith(line, GIT_HEADER) then
      ReaderState(Flush(st), HeaderPath(line), [], [], [], [], 0, 0)
    else if StartsWith(line, "+++") || StartsWith(line, "---") then st
    else if StartsWith(line, "\\") then st
    else if StartsWith(line, "@@") then
      match HunkStart(line)
      case None => st
      case Some((o, n)) => st.(oldLine := o, newLine := n)
    else if StartsWith(line, "+") then
      st.(added := st.added + [line[1..]], addedNos := st.addedNos + [st.newLine], newLine := st.newLine + 1)
    else if StartsWith(line, "-") then
      st.(removed := st.removed + [line[1..]], removedNos := st.removedNos + [st.oldLine], oldLine := st.oldLine + 1)
    else
      st.(oldLine := st.oldLine + 1, newLine := st.newLine + 1)
  }

  function Run(st: ReaderState, lines: seq<string>): ReaderState
    decreases |lines|
  {
    if lines == [] then st else Run(Step(st, lines[0]), lines[1..])
  }

  function FileDiffs(lines: seq<string>): seq<FileDiff> {
    Flush(Run(START, lines))
  }

  // ---- str.splitlines ----

  /** The characters at which `str.splitlines` breaks a line. */
  predicate IsBreak(c: char) {
    var n := c as int;
    10 <= n <= 13 || 28 <= n <= 30 || n == 0x85 || n == 0x2028 || n == 0x2029
  }

  /** Line feed to carriage return, the three separators, next line, and the two Unicode separators. */
  lemma BreaksAre(c: char)
    ensures IsBreak(c) <==> c as int in {0x0A, 0x0B, 0x0C, 0x0D, 0x1C, 0x1D, 0x1E, 0x85, 0x2028, 0x2029}
  {}

  function BreakAt(s: string, i: nat): (j: nat)
    requires i <= |s|
    ensures i <= j <= |s|
    ensures forall k :: i <= k < j ==> !IsBreak(s[k])
    ensures j < |s| ==> IsBreak(s[j])
    decreases |s| - i
  {
    if i < |s| && !IsBreak(s[i]) then BreakAt(s, i + 1) else i
  }

  /** `text.splitlines()`: CR LF is one break, and a final break opens no further line. */
  function TextLines(s: string): (lines: seq<string>)
    ensures forall l, c :: l in lines && c in l ==> !IsBreak(c)
    decreases |s|
  {
    if s == "" then []
    else
      var j := BreakAt(s, 0);
      if j == |s| then [s]
      else if s[j] == '\r' && j + 1 < |s| && s[j + 1] == '\n' then [s[..j]] + TextLines(s[j + 2..])
      else [s[..j]] + TextLines(s[j + 1..])
  }

  lemma {:induction false} RunAppend(st: ReaderState, a: seq<string>, b: seq<string>)
    ensures Run(st, a + b) == Run(Run(st, a), b)
    decreases |a|
  {
    if a == [] {
      assert a + b == b;
    } else {
      assert (a + b)[0] == a[0] && (a + b)[1..] == a[1..] + b;
      RunAppend(Step(st, a[0]), a[1..], b);
    }
  }

  lemma {:induction false} RunOne(st: ReaderState, a: seq<string>, line: string)
    ensures Run(st, a + [line]) == Step(Run(st, a), line)
  {
    RunAppend(st, a, [line]);
  }

  /** `_iter_file_diffs`. */
  method IterFileDiffs(diffText: string) returns (files: seq<FileDiff>)
    ensures files == FileDiffs(TextLines(diffText))
  {
    var lines := TextLines(diffText);
    files := [];
    var path: Option<string> := None;
    var removed: seq<string>, added: seq<string> := [], [];
    var removedNos: seq<nat>, addedNos: seq<nat> := [], [];
    var oldLine: nat, newLine: nat := 0, 0;
    for i := 0 to |lines|
      invariant ReaderState(files, path, removed, added, removedNos, addedNos, oldLine, newLine)
             == Run(START, lines[..i])
    {
      var line := lines[i];
      assert lines[..i + 1] == lines[..i] + [line];
      RunOne(START, lines[..i], line);
      if StartsWith(line, GIT_HEADER) {
        if path.Some? {
          files := files + [FileDiff(path.value, removed, added, removedNos, addedNos)];
        }
        removed, added, removedNos, addedNos := [], [], [], [];
        oldLine, newLine := 0, 0;
        path := HeaderPath(line);
      } else if StartsWith(line, "+++") || StartsWith(line, "---") {
      } else if StartsWith(line, "\\") {
      } else if StartsWith(line, "@@") {
        var hunk := HunkStart(line);
        if hunk.Some? {
          oldLine, newLine := hunk.value.0, hunk.value.1;
        }
      } else if StartsWith(line, "+") {
        added := added + [line[1..]];
        addedNos := addedNos + [newLine];
        newLine := newLine + 1;
      } else if StartsWith(line, "-") {
        removed := removed + [line[1..]];
        removedNos := removedNos + [oldLine];
        oldLine := oldLine + 1;
      } else {
        oldLine := oldLine + 1;
        newLine := newLine + 1;
      }
    }
    assert lines[..|lines|] == lines;
    if path.Some? {
      files := files + [FileDiff(path.value, removed, added, removedNos, addedNos)];
    }
  }
}
