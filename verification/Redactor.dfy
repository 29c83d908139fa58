/** Blanking out source spans in place, and which identifiers are still found afterwards. */
module Redactor {
  import opened Text

  /** A source span as `ast` and `tokenize` give it: lines from 1, columns from 0, the end excluded. */
  datatype Span = Span(startLine: nat, startCol: nat, endLine: nat, endCol: nat)

  /** `len(line.rstrip("\n"))`. */
  function BodyLen(line: string): (n: nat)
    ensures n <= |line|
    ensures forall j :: n <= j < |line| ==> line[j] == '\n'
    ensures n > 0 ==> line[n - 1] != '\n'
  {
    if line != "" && line[|line| - 1] == '\n' then BodyLen(line[..|line| - 1]) else |line|
  }

  /** The span lies in the text, and its columns lie in the bodies of its first and last lines. */
  predicate Valid(lines: seq<string>, s: Span) {
    1 <= s.startLine <= s.endLine <= |lines|
    && s.startCol <= BodyLen(lines[s.startLine - 1])
    && s.endCol <= BodyLen(lines[s.endLine - 1])
    && (s.startLine == s.endLine ==> s.startCol <= s.endCol)
  }

  predicate AllValid(lines: seq<string>, spans: seq<Span>) {
    forall s :: s in spans ==> Valid(lines, s)
  }

  /** The span covers column `j` of the line with index `i`; line ends are never covered. */
  predicate Covers(s: Span, line: string, i: nat, j: nat) {
    s.startLine <= i + 1 <= s.endLine
    && (i + 1 == s.startLine ==> s.startCol <= j)
    && (i + 1 == s.endLine ==> j < s.endCol)
    && j < BodyLen(line)
  }

  predicate Covered(spans: seq<Span>, line: string, i: nat, j: nat) {
    exists s :: s in spans && Covers(s, line, i, j)
  }

  /** The line with index `i` with every covered character replaced by a space. */
  function BlankLine(line: string, i: nat, spans: seq<Span>): (r: string)
    ensures |r| == |line|
    ensures forall j :: 0 <= j < |line| ==> r[j] == if Covered(spans, line, i, j) then ' ' else line[j]
  {
    seq(|line|, j requires 0 <= j < |line| => if Covered(spans, line, i, j) then ' ' else line[j])
  }

  /** The lines from index `base` on after redaction. */
  function Redacted(lines: seq<string>, spans: seq<Span>, base: nat): (r: seq<string>)
    ensures |r| == |lines|
    ensures forall i :: 0 <= i < |lines| ==> r[i] == BlankLine(lines[i], base + i, spans)
  {
    if lines == [] then [] else [BlankLine(lines[0], base, spans)] + Redacted(lines[1..], spans, base + 1)
  }

  // ---- the in-place operation ----

  function Spaces(n: nat): (r: string)
    ensures |r| == n && forall j :: 0 <= j < n ==> r[j] == ' '
  {
    seq(n, _ => ' ')
  }

  lemma IsBlankLine(line: string, i: nat, s: Span, r: string)
    requires |r| == |line|
    requires forall j :: 0 <= j < |line| ==> r[j] == if Covers(s, line, i, j) then ' ' else line[j]
    ensures r == BlankLine(line, i, [s])
  {
    forall j | 0 <= j < |line| ensures Covered([s], line, i, j) <==> Covers(s, line, i, j) {
      assert s in [s];
    }
  }

  lemma UntouchedLine(line: string, i: nat, s: Span)
    requires !(s.startLine <= i + 1 <= s.endLine)
    ensures line == BlankLine(line, i, [s])
  {
    IsBlankLine(line, i, s, line);
  }

  /** The expression that all four assignments of `_blank_span` share. */
  function Blot(line: string, from: nat, to: nat): (r: string)
    requires from <= to <= |line|
    ensures |r| == |line|
    ensures forall j :: 0 <= j < |line| ==> r[j] == if from <= j < to then ' ' else line[j]
  {
    line[..from] + Spaces(to - from) + line[to..]
  }

  /** The columns of the line with index `i` from which and to which the span blanks it. */
  function From(s: Span, i: nat): nat {
    if i + 1 == s.startLine then s.startCol else 0
  }

  function To(s: Span, line: string, i: nat): nat {
    if i + 1 == s.endLine then s.endCol else BodyLen(line)
  }

  lemma {:induction false} BlotIsBlank(line: string, i: nat, s: Span)
    requires s.startLine <= i + 1 <= s.endLine && From(s, i) <= To(s, line, i) <= BodyLen(line)
    ensures Blot(line, From(s, i), To(s, line, i)) == BlankLine(line, i, [s])
  {
    IsBlankLine(line, i, s, Blot(line, From(s, i), To(s, line, i)));
  }

  /** `_blank_span`. */
  method BlankSpan(lines: array<string>, s: Span)
    requires Valid(lines[..], s)
    modifies lines
    ensures lines[..] == Redacted(old(lines[..]), [s], 0)
  {
    hide BlankLine, BodyLen, Blot, Redacted, Covers;
    ghost var before := lines[..];
    forall i | 0 <= i < lines.Length && !(s.startLine <= i + 1 <= s.endLine)
      ensures before[i] == BlankLine(before[i], i, [s])
    {
      UntouchedLine(before[i], i, s);
    }
    var a, b := s.startLine - 1, s.endLine - 1;
    if a == b {
      lines[a] := Blot(lines[a], s.startCol, s.endCol);
      BlotIsBlank(before[a], a, s);
    } else {
      lines[a] := Blot(lines[a], s.startCol, BodyLen(lines[a]));
      BlotIsBlank(before[a], a, s);
      for mid := s.startLine to b
        invariant forall i :: 0 <= i < lines.Length ==>
          lines[i] == if i < mid then BlankLine(before[i], i, [s]) else before[i]
      {
        lines[mid] := Blot(lines[mid], 0, BodyLen(lines[mid]));
        BlotIsBlank(before[mid], mid, s);
      }
      lines[b] := Blot(lines[b], 0, s.endCol);
      BlotIsBlank(before[b], b, s);
    }
    assert forall i :: 0 <= i < lines.Length ==> lines[i] == BlankLine(before[i], i, [s]);
  }

  // ---- sequences of spans ----

  lemma BlankKeepsBody(line: string, i: nat, spans: seq<Span>)
    ensures BodyLen(BlankLine(line, i, spans)) == BodyLen(line)
  {
    var r, n := BlankLine(line, i, spans), BodyLen(line);
    BodyLenIs(r, n);
  }

  lemma BodyLenIs(line: string, n: nat)
    requires n <= |line|
    requires forall j :: n <= j < |line| ==> line[j] == '\n'
    requires n > 0 ==> line[n - 1] != '\n'
    ensures BodyLen(line) == n
  {
  }

  lemma BlankTwice(line: string, i: nat, a: seq<Span>, b: seq<Span>)
    ensures BlankLine(BlankLine(line, i, a), i, b) == BlankLine(line, i, a + b)
  {
    BlankKeepsBody(line, i, a);
    var mid := BlankLine(line, i, a);
    forall j | 0 <= j < |line|
      ensures Covered(a + b, line, i, j) <==> Covered(a, line, i, j) || Covered(b, mid, i, j)
    {
      forall s ensures Covers(s, mid, i, j) <==> Covers(s, line, i, j) {
      }
      assert forall s :: s in a + b <==> s in a || s in b;
    }
  }

  lemma RedactedTwice(lines: seq<string>, a: seq<Span>, b: seq<Span>)
    ensures Redacted(Redacted(lines, a, 0), b, 0) == Redacted(lines, a + b, 0)
  {
    forall i | 0 <= i < |lines|
      ensures Redacted(Redacted(lines, a, 0), b, 0)[i] == Redacted(lines, a + b, 0)[i]
    {
      BlankTwice(lines[i], i, a, b);
    }
  }

  lemma StaysValid(lines: seq<string>, spans: seq<Span>, s: Span)
    requires Valid(lines, s)
    ensures Valid(Redacted(lines, spans, 0), s)
  {
    hide BlankLine, BodyLen, Redacted;
    var a, b := s.startLine - 1, s.endLine - 1;
    assert Redacted(lines, spans, 0)[a] == BlankLine(lines[a], a, spans);
    assert Redacted(lines, spans, 0)[b] == BlankLine(lines[b], b, spans);
    BlankKeepsBody(lines[a], a, spans);
    BlankKeepsBody(lines[b], b, spans);
  }

  /** The blanking loops of `_redact_comments_and_docstrings`: docstrings first, then comments. */
  method RedactAll(lines: array<string>, docstrings: seq<Span>, comments: seq<Span>)
    requires AllValid(lines[..], docstrings) && AllValid(lines[..], comments)
    modifies lines
    ensures lines[..] == Redacted(old(lines[..]), docstrings + comments, 0)
  {
    hide Redacted, Valid;
    ghost var before := lines[..];
    NoSpans(before);
    for i := 0 to |docstrings|
      invariant lines[..] == Redacted(before, docstrings[..i], 0)
    {
      BlankNext(before, docstrings[..i], docstrings[i]);
      BlankSpan(lines, docstrings[i]);
      assert docstrings[..i + 1] == docstrings[..i] + [docstrings[i]];
    }
    assert docstrings[..|docstrings|] == docstrings;
    assert docstrings + comments[..0] == docstrings;
    for i := 0 to |comments|
      invariant lines[..] == Redacted(before, docstrings + comments[..i], 0)
    {
      BlankNext(before, docstrings + comments[..i], comments[i]);
      BlankSpan(lines, comments[i]);
      assert docstrings + comments[..i + 1] == docstrings + comments[..i] + [comments[i]];
    }
    assert comments[..|comments|] == comments;
  }

  lemma {:induction false} BlankNext(before: seq<string>, done: seq<Span>, s: Span)
    requires Valid(before, s)
    ensures Valid(Redacted(before, done, 0), s)
    ensures Redacted(Redacted(before, done, 0), [s], 0) == Redacted(before, done + [s], 0)
  {
    StaysValid(before, done, s);
    RedactedTwice(before, done, [s]);
  }

  lemma NoSpans(lines: seq<string>)
    ensures Redacted(lines, [], 0) == lines
  {
    forall i | 0 <= i < |lines| ensures BlankLine(lines[i], i, []) == lines[i] {
      assert forall j :: !Covered([], lines[i], i, j);
    }
  }

  // ---- what redaction does ----

  /** Any order of the spans, and any repetition of them, gives the same text. */
  lemma OrderFree(lines: seq<string>, a: seq<Span>, b: seq<Span>)
    requires forall s :: s in a <==> s in b
    ensures Redacted(lines, a, 0) == Redacted(lines, b, 0)
  {
    forall i | 0 <= i < |lines| ensures BlankLine(lines[i], i, a) == BlankLine(lines[i], i, b) {
      forall j ensures Covered(a, lines[i], i, j) <==> Covered(b, lines[i], i, j) {
      }
    }
  }

  /** Line count, line lengths and line ends stay; a character becomes a space exactly when it is covered. */
  lemma Pointwise(lines: seq<string>, spans: seq<Span>)
    ensures var r := Redacted(lines, spans, 0);
            |r| == |lines|
            && forall i, j :: 0 <= i < |lines| && 0 <= j < |lines[i]| ==>
                 |r[i]| == |lines[i]|
                 && (j >= BodyLen(lines[i]) ==> r[i][j] == '\n')
                 && (lines[i][j] != ' ' ==> (r[i][j] == ' ' <==> Covered(spans, lines[i], i, j)))
                 && (!Covered(spans, lines[i], i, j) ==> r[i][j] == lines[i][j])
  {
  }

  // ---- occurrences ----

  /** `"".join(lines)`. */
  function Flat(lines: seq<string>): string {
    if lines == [] then "" else lines[0] + Flat(lines[1..])
  }

  /** Offset `k` of the joined text, whose first line has index `base`, lies in a span. */
  predicate CoveredAt(lines: seq<string>, spans: seq<Span>, base: nat, k: nat) {
    lines != []
    && if k < |lines[0]| then Covered(spans, lines[0], base, k)
       else CoveredAt(lines[1..], spans, base + 1, k - |lines[0]|)
  }

  lemma {:induction false} FlatRedacted(lines: seq<string>, spans: seq<Span>, base: nat)
    ensures var s, r := Flat(lines), Flat(Redacted(lines, spans, base));
            |r| == |s| && forall k :: 0 <= k < |s| ==> r[k] == if CoveredAt(lines, spans, base, k) then ' ' else s[k]
  {
    if lines == [] {
    } else {
      FlatRedacted(lines[1..], spans, base + 1);
      var r := Redacted(lines, spans, base);
      assert r[1..] == Redacted(lines[1..], spans, base + 1);
    }
  }

  /** Some occurrence of `id` in the source touches no comment and no docstring. */
  ghost predicate LiveOccurrence(lines: seq<string>, spans: seq<Span>, id: string) {
    exists k :: HasAt(Flat(lines), k, id) && forall x: nat :: k <= x < k + |id| ==> !CoveredAt(lines, spans, 0, x)
  }

  lemma FoundIsLive(lines: seq<string>, spans: seq<Span>, id: string)
    requires ' ' !in id && Contains(Flat(Redacted(lines, spans, 0)), id)
    ensures LiveOccurrence(lines, spans, id)
  {
    hide CoveredAt, Flat, Redacted, HasAt;
    var s, r := Flat(lines), Flat(Redacted(lines, spans, 0));
    FlatRedacted(lines, spans, 0);
    var k :| 0 <= k <= |r| && HasAt(r, k, id);
    PieceFits(r, k, id);
    forall x: nat | k <= x < k + |id| ensures !CoveredAt(lines, spans, 0, x) && s[x] == id[x - k] {
      HasAtChar(r, k, id, x - k);
      assert id[x - k] in id;
    }
    SpelledOut(s, k, id);
  }

  lemma SpelledOut(s: string, k: nat, pat: string)
    requires k + |pat| <= |s| && forall x :: k <= x < k + |pat| ==> s[x] == pat[x - k]
    ensures HasAt(s, k, pat)
  {
    assert s[k..k + |pat|] == pat;
  }

  lemma LiveIsFound(lines: seq<string>, spans: seq<Span>, id: string)
    requires LiveOccurrence(lines, spans, id)
    ensures Contains(Flat(Redacted(lines, spans, 0)), id)
  {
    hide CoveredAt, Flat, Redacted, HasAt;
    var s, r := Flat(lines), Flat(Redacted(lines, spans, 0));
    FlatRedacted(lines, spans, 0);
    var k :| HasAt(s, k, id) && forall x: nat :: k <= x < k + |id| ==> !CoveredAt(lines, spans, 0, x);
    PieceFits(s, k, id);
    forall x | k <= x < k + |id| ensures r[x] == id[x - k] {
      HasAtChar(s, k, id, x - k);
    }
    SpelledOut(r, k, id);
  }

  /** A name is found in the redacted text exactly when it has a live occurrence in the source. */
  lemma FoundIffLive(lines: seq<string>, spans: seq<Span>, id: string)
    requires ' ' !in id
    ensures Contains(Flat(Redacted(lines, spans, 0)), id) <==> LiveOccurrence(lines, spans, id)
  {
    hide CoveredAt, Flat, Redacted, HasAt, Contains, LiveOccurrence;
    if Contains(Flat(Redacted(lines, spans, 0)), id) {
      FoundIsLive(lines, spans, id);
    } else if LiveOccurrence(lines, spans, id) {
      LiveIsFound(lines, spans, id);
    }
  }

  // ---- fragments of longer words ----

  predicate LiveAt(lines: seq<string>, spans: seq<Span>, id: string, k: nat) {
    HasAt(Flat(lines), k, id) && forall x: nat :: k <= x < k + |id| ==> !CoveredAt(lines, spans, 0, x)
  }

  /** A word character stands right before or right after the occurrence. */
  predicate InsideWord(s: string, k: nat, id: string) {
    (0 < k <= |s| && IsWord(s[k - 1])) || (k + |id| < |s| && IsWord(s[k + |id|]))
  }

  ghost predicate LiveWord(lines: seq<string>, spans: seq<Span>, id: string) {
    exists k: nat :: LiveAt(lines, spans, id, k) && WholeWordAt(Flat(lines), k, id)
  }

  /** A name is found without standing anywhere as a live word exactly when every live occurrence is part of a longer word. */
  lemma FragmentIff(lines: seq<string>, spans: seq<Span>, id: string)
    requires ' ' !in id
    ensures Contains(Flat(Redacted(lines, spans, 0)), id) && !LiveWord(lines, spans, id) <==>
      (exists k: nat :: LiveAt(lines, spans, id, k))
      && forall k: nat :: LiveAt(lines, spans, id, k) ==> InsideWord(Flat(lines), k, id)
  {
    hide CoveredAt, HasAt, Flat, Redacted, IsWord, Contains;
    FoundIffLive(lines, spans, id);
    forall k: nat | LiveAt(lines, spans, id, k) ensures WholeWordAt(Flat(lines), k, id) <==> !InsideWord(Flat(lines), k, id) {
    }
    LiveIsLiveAt(lines, spans, id);
  }

  lemma LiveIsLiveAt(lines: seq<string>, spans: seq<Span>, id: string)
    ensures LiveOccurrence(lines, spans, id) <==> exists k: nat :: LiveAt(lines, spans, id, k)
  {
    if LiveOccurrence(lines, spans, id) {
      var k :| HasAt(Flat(lines), k, id) && forall x: nat :: k <= x < k + |id| ==> !CoveredAt(lines, spans, 0, x);
      assert LiveAt(lines, spans, id, k);
    }
  }

  /** `ab_cd` is found in `ab_cd_ef`. */
  lemma FragmentSurvives()
    ensures Contains(Flat(Redacted(["ab_cd_ef"], [], 0)), "ab_cd") && !LiveWord(["ab_cd_ef"], [], "ab_cd")
  {
    var lines := ["ab_cd_ef"];
    assert lines[1..] == [] && Flat(lines) == "ab_cd_ef";
    NoSpans(lines);
    assert "ab_cd_ef"[0..5] == "ab_cd" && HasAt("ab_cd_ef", 0, "ab_cd");
    forall k: nat | HasAt("ab_cd_ef", k, "ab_cd") ensures InsideWord("ab_cd_ef", k, "ab_cd") {
      HasAtChar("ab_cd_ef", k, "ab_cd", 0);
      assert k == 0;
    }
  }

  // ---- the survival test ----

  /** A file of `src/` that the raw text search names, as far as its contents could be read. */
  datatype Candidate =
    | NotPython
    | Unreadable
    | Unparsed
    | Parsed(lines: seq<string>, docstrings: seq<Span>, comments: seq<Span>)
  {
    predicate WellFormed() {
      Parsed? ==> AllValid(lines, docstrings) && AllValid(lines, comments)
    }

    /** What the text search found still counts: what cannot be read as Python always does. */
    ghost predicate Shows(id: string) {
      Parsed? ==> LiveOccurrence(lines, docstrings + comments, id)
    }
  }

  lemma ShowsIff(c: Candidate, id: string)
    ensures c.Shows(id) <==> c.NotPython? || c.Unreadable? || c.Unparsed? || LiveOccurrence(c.lines, c.docstrings + c.comments, id)
  {
    hide LiveOccurrence;
  }

  /** `identifier_survives_in_src` over the files that `git grep` names. */
  method SurvivesInSrc(id: string, candidates: seq<Candidate>) returns (survives: bool)
    requires ' ' !in id
    requires forall c :: c in candidates ==> c.WellFormed()
    ensures survives <==> exists c :: (c in candidates &&
      (c.NotPython? || c.Unreadable? || c.Unparsed? || LiveOccurrence(c.lines, c.docstrings + c.comments, id)))
  {
    for i := 0 to |candidates|
      invariant forall c :: c in candidates[..i] ==> !c.Shows(id)
    {
      var c := candidates[i];
      ShowsIff(c, id);
      assert c in candidates && candidates[..i + 1] == candidates[..i] + [c];
      if !c.Parsed? {
        assert c.Shows(id);
        return true;
      }
      assert c.WellFormed();
      var lines := new string[|c.lines|](k requires 0 <= k < |c.lines| => c.lines[k]);
      assert lines[..] == c.lines;
      RedactAll(lines, c.docstrings, c.comments);
      FoundIffLive(c.lines, c.docstrings + c.comments, id);
      if Contains(Flat(lines[..]), id) {
        return true;
      }
    }
    assert candidates[..|candidates|] == candidates;
    forall c | c in candidates ensures c.Parsed? && !LiveOccurrence(c.lines, c.docstrings + c.comments, id) {
      ShowsIff(c, id);
    }
    return false;
  }
}
