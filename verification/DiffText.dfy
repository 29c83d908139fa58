/** What line breaks inside the lines of a diff, and quoted headers, do to the reader. */
module DiffText {
  import opened Wrappers
  import opened Text
  import opened DiffParser
  import opened DiffRoundTrip
  import opened DiffLaws

  // ---- the lines of a text ----

  predicate IsLineBreak(b: string) {
    b == "\r\n" || (|b| == 1 && IsBreak(b[0]))
  }

  function Joined(lines: seq<string>, breaks: seq<string>): string
    requires |lines| == |breaks|
  {
    if lines == [] then "" else lines[0] + breaks[0] + Joined(lines[1..], breaks[1..])
  }

  /** A line, the break behind it, and what the rest of the text is split into. */
  lemma TextLinesStep(s: string) returns (j: nat, k: nat)
    requires s != ""
    ensures j <= k <= |s| && TextLines(s) == [s[..j]] + TextLines(s[k..])
    ensures IsLineBreak(s[j..k]) || (j == k == |s|)
  {
    j := BreakAt(s, 0);
    if j == |s| {
      k := j;
      assert s[..j] == s && s[k..] == "";
      NoLines();
    } else if s[j] == '\r' && j + 1 < |s| && s[j + 1] == '\n' {
      k := j + 2;
      assert s[j..k] == "\r\n";
    } else {
      k := j + 1;
      assert s[j..k] == [s[j]];
    }
  }

  /** Only the last line may lack its break. */
  predicate AreBreaks(breaks: seq<string>) {
    forall i :: 0 <= i < |breaks| ==> IsLineBreak(breaks[i]) || (breaks[i] == "" && i == |breaks| - 1)
  }

  lemma BreaksCons(b: string, rest: seq<string>)
    requires AreBreaks(rest) && (IsLineBreak(b) || (b == "" && rest == []))
    ensures AreBreaks([b] + rest)
  {
    hide IsLineBreak;
  }

  lemma JoinedCons(line: string, b: string, lines: seq<string>, breaks: seq<string>)
    requires |lines| == |breaks|
    ensures Joined([line] + lines, [b] + breaks) == line + b + Joined(lines, breaks)
  {
    assert ([line] + lines)[1..] == lines && ([b] + breaks)[1..] == breaks;
  }

  /** The lines and the breaks between them are the text. */
  lemma {:induction false} LinesArePieces(s: string) returns (breaks: seq<string>)
    ensures |breaks| == |TextLines(s)| && Joined(TextLines(s), breaks) == s && AreBreaks(breaks)
    decreases |s|
  {
    hide TextLines, IsLineBreak, Joined, AreBreaks;
    NoLines();
    if s == "" {
      breaks := [];
    } else {
      var j, k := TextLinesStep(s);
      BreakMakesProgress(s, j, k);
      var rest := LinesArePieces(s[k..]);
      breaks := [s[j..k]] + rest;
      BreaksCons(s[j..k], rest);
      JoinedCons(s[..j], s[j..k], TextLines(s[k..]), rest);
      assert s == s[..j] + s[j..k] + s[k..];
    }
  }

  lemma NoLines()
    ensures TextLines("") == [] && Joined([], []) == "" && AreBreaks([])
  {}

  lemma BreakMakesProgress(s: string, j: nat, k: nat)
    requires s != "" && j <= k <= |s| && (IsLineBreak(s[j..k]) || j == k == |s|)
    ensures k > 0
  {}

  // ---- what the reader can report at all ----

  predicate AllUnbroken(lines: seq<string>) {
    forall l :: l in lines ==> Unbroken(l)
  }

  predicate CleanDiff(d: FileDiff) {
    Unbroken(d.path) && AllUnbroken(d.removed) && AllUnbroken(d.added)
  }

  predicate CleanState(st: ReaderState) {
    (forall d :: d in st.files ==> CleanDiff(d)) && (st.path.Some? ==> Unbroken(st.path.value))
    && AllUnbroken(st.removed) && AllUnbroken(st.added)
  }

  lemma SuffixIsUnbroken(line: string, i: nat)
    requires Unbroken(line) && i <= |line|
    ensures Unbroken(line[i..])
  {
    var rest := line[i..];
    assert forall c :: c in rest ==> c in line;
  }

  lemma StepKeepsClean(st: ReaderState, line: string)
    requires CleanState(st) && Unbroken(line)
    ensures CleanState(Step(st, line))
  {
    hide IsBreak, HunkStart, LastSplit, Unbroken;
    if line != "" {
      SuffixIsUnbroken(line, 1);
    }
    if HeaderPath(line).Some? {
      SuffixIsUnbroken(line, LastSplit(line, |line|).value + 3);
    }
  }

  lemma {:induction false} RunKeepsClean(st: ReaderState, lines: seq<string>)
    requires CleanState(st) && AllUnbroken(lines)
    ensures CleanState(Run(st, lines))
    decreases |lines|
  {
    hide Step, CleanState, Unbroken;
    if lines == [] {
    } else {
      assert lines[0] in lines;
      StepKeepsClean(st, lines[0]);
      RunKeepsClean(Step(st, lines[0]), lines[1..]);
    }
  }

  /** No reported line and no reported path holds a break, whatever the text is. */
  lemma ReportsAreUnbroken(text: string)
    ensures forall d :: d in FileDiffs(TextLines(text)) ==> CleanDiff(d)
  {
    hide Step;
    assert AllUnbroken(TextLines(text));
    RunKeepsClean(START, TextLines(text));
  }

  /** The edited lines and the new path hold no break. */
  predicate EditsUnbroken(c: FileChange) {
    CleanDiff(Truth(c))
  }

  /** Any break in an edited line or in the new path corrupts the report: no text is read as such an edit. */
  lemma {:induction false} EditsMustBeUnbroken(changes: seq<FileChange>, text: string)
    requires FileDiffs(TextLines(text)) == Truths(changes)
    ensures forall c :: c in changes ==> EditsUnbroken(c)
  {
    hide TextLines, FileDiffs, Truth, CleanDiff;
    ReportsAreUnbroken(text);
    forall c | c in changes ensures EditsUnbroken(c) {
      TruthIsListed(changes, c);
    }
  }

  lemma {:induction false} TruthIsListed(changes: seq<FileChange>, c: FileChange)
    requires c in changes
    ensures Truth(c) in Truths(changes)
  {
    if c == changes[0] {
    } else {
      TruthIsListed(changes[1..], c);
    }
  }

  // ---- quoted headers ----

  /** git quotes a path with unusual characters: such a header has no path, and the file's report is lost. */
  lemma {:induction false} QuotedHeaderLosesFile(st: ReaderState, header: string, lines: seq<string>)
    requires StartsWith(header, "diff --git \"") && forall l :: l in lines ==> !StartsWith(l, GIT_HEADER)
    ensures HeaderPath(header) == None && Flush(Run(st, [header] + lines)) == Flush(st)
  {
    assert header[0..12] == "diff --git \"" && header[11] == '"';
    assert header[0..11] == GIT_HEADER;
    if StartsWith(header, "diff --git a/") {
      HasAtChar(header, 0, "diff --git a/", 11);
    }
    var st1 := Step(st, header);
    assert ([header] + lines)[1..] == lines;
    NoHeaderNoFile(st1, lines);
  }

  lemma {:induction false} NoHeaderNoFile(st: ReaderState, lines: seq<string>)
    requires st.path == None && forall l :: l in lines ==> !StartsWith(l, GIT_HEADER)
    ensures Run(st, lines).path == None && Run(st, lines).files == st.files
    decreases |lines|
  {
    hide HunkStart, HeaderPath;
    if lines == [] {
    } else {
      assert lines[0] in lines;
      NoHeaderNoFile(Step(st, lines[0]), lines[1..]);
    }
  }
}
