/**
  What the comment and docstring remover does to words: a word of its output that is no word of the
  source comes from a cut with word characters on both sides.
 */
module StripGlue {
  import opened Wrappers
  import opened Text
  import opened Stripper
  import opened StripLexer

  // ---- every cut is bordered by markers ----

  predicate IsMark(c: char) {
    c == '#' || c == '"' || c == '\''
  }

  lemma MarkIsNoWord(c: char)
    requires IsMark(c)
    ensures !IsWord(c)
  {}

  /** Next to a kept offset stands another kept offset, a marker character, or the end of the line. */
  predicate Bordered(line: string, ks: seq<nat>)
    requires Within(ks, |line|)
  {
    Increasing(ks) && forall k :: k in ks ==> BorderedAt(line, ks, k)
  }

  predicate BorderedAt(line: string, ks: seq<nat>, k: nat)
    requires k < |line|
  {
    (k > 0 && k - 1 !in ks ==> IsMark(line[k - 1])) && (k + 1 < |line| && k + 1 !in ks ==> IsMark(line[k + 1]))
  }

  lemma IncreasingNext(ks: seq<nat>, x: nat, y: nat)
    requires Increasing(ks) && x < |ks| && y < |ks| && ks[y] == ks[x] + 1
    ensures y == x + 1
  {
    var n := x + 1;
    assert n < |ks| ==> ks[x] < ks[n];
  }

  /** Cutting from a marker character up to a marker character, or to the end, leaves borders. */
  lemma CutIsBordered(line: string, ks: seq<nat>, i: nat, j: nat)
    requires Within(ks, |line|) && Bordered(line, ks) && i < j <= |ks|
    requires IsMark(line[ks[i]]) && (j < |ks| ==> IsMark(line[ks[j - 1]]))
    ensures Within(Cut(ks, i, j), |line|) && Bordered(line, Cut(ks, i, j))
  {
    hide Cut, IsMark, BorderedAt;
    var r := Cut(ks, i, j);
    CutOrder(ks, i, j);
    assert Within(r, |line|) by { assert forall x :: 0 <= x < |r| ==> r[x] in r; }
    forall k | k in r ensures BorderedAt(line, r, k) {
      var x :| 0 <= x < |r| && r[x] == k;
      CutAt(ks, i, j, x);
      var y := if x < i then x else x + j - i;
      assert ks[y] in ks;
      CutIsBorderedAt(line, ks, i, j, y);
    }
  }

  lemma CutIsBorderedAt(line: string, ks: seq<nat>, i: nat, j: nat, y: nat)
    requires Within(ks, |line|) && Increasing(ks) && i < j <= |ks| && y < |ks| && (y < i || j <= y)
    requires BorderedAt(line, ks, ks[y]) && IsMark(line[ks[i]]) && (j < |ks| ==> IsMark(line[ks[j - 1]]))
    ensures BorderedAt(line, Cut(ks, i, j), ks[y])
  {
    hide Cut, IsMark, Increasing;
    var r, k := Cut(ks, i, j), ks[y];
    if k > 0 && k - 1 !in r && k - 1 in ks {
      var z :| 0 <= z < |ks| && ks[z] == k - 1;
      IncreasingNext(ks, z, y);
      if z != j - 1 {
        StaysInCut(ks, i, j, z);
      }
    }
    if k + 1 !in r && k + 1 in ks {
      var z :| 0 <= z < |ks| && ks[z] == k + 1;
      IncreasingNext(ks, y, z);
      if z != i {
        StaysInCut(ks, i, j, z);
      }
    }
  }

  lemma StaysInCut<T>(ks: seq<T>, i: nat, j: nat, z: nat)
    requires i <= j <= |ks| && z < |ks| && (z < i || j <= z)
    ensures ks[z] in Cut(ks, i, j)
  {
    var r := Cut(ks, i, j);
    assert r[if z < i then z else z - (j - i)] == ks[z];
  }

  lemma CutAt<T>(ks: seq<T>, i: nat, j: nat, x: nat)
    requires i <= j <= |ks| && x < |Cut(ks, i, j)|
    ensures Cut(ks, i, j)[x] == ks[if x < i then x else x + j - i]
  {}

  lemma CutToEnd<T>(ks: seq<T>, i: nat)
    requires i <= |ks|
    ensures Cut(ks, i, |ks|) == ks[..i]
  {}

  lemma SignIsMark(t: string, i: nat, marker: Marker)
    requires HasAt(t, i, Sign(marker))
    ensures i < |t| && IsMark(t[i]) && (marker.Triple? ==> IsMark(t[i + 2]))
  {
    HasAtChar(t, i, Sign(marker), 0);
    if marker.Triple? {
      HasAtChar(t, i, Sign(marker), 2);
    }
  }

  lemma {:induction false} KeptIsBordered(line: string, ks: seq<nat>)
    requires Within(ks, |line|) && Bordered(line, ks)
    ensures Within(StripKept(line, ks).0, |line|) && Bordered(line, StripKept(line, ks).0)
    decreases |ks|
  {
    hide StripKept, Earliest, Find, MarkerFree, MarkerAt, HasAt, Cut, Increasing, Bordered, IsMark;
    var t := Pick(line, ks);
    if Earliest(t).None? {
      StripKeptEnd(line, ks);
    } else {
      var (i, marker) := Earliest(t).value;
      var c := if marker.Hash? then None else Find(t, Sign(marker), i + 3);
      StripKeptTurn(line, ks, i, marker, c);
      TurnIsBordered(line, ks, i, marker, c);
      if c.Some? {
        KeptIsBordered(line, Cut(ks, i, c.value + 3));
      }
    }
  }

  /** What one turn of the loop cuts away is bordered by markers. */
  lemma TurnIsBordered(line: string, ks: seq<nat>, i: nat, marker: Marker, c: Option<nat>)
    requires Within(ks, |line|) && Bordered(line, ks) && HasAt(Pick(line, ks), i, Sign(marker))
    requires c.Some? ==> marker.Triple? && i + 3 <= c.value && HasAt(Pick(line, ks), c.value, Sign(marker))
    ensures c.None? ==> i <= |ks| && Within(ks[..i], |line|) && Bordered(line, ks[..i])
    ensures c.Some? ==> c.value + 3 <= |ks| && Within(Cut(ks, i, c.value + 3), |line|) && Bordered(line, Cut(ks, i, c.value + 3))
  {
    hide HasAt, Cut, Increasing, Bordered, IsMark, Pick;
    var t := Pick(line, ks);
    SignIsMark(t, i, marker);
    if c.None? {
      CutIsBordered(line, ks, i, |ks|);
      CutToEnd(ks, i);
    } else {
      HasAtFits(t, c.value, Sign(marker));
      SignIsMark(t, c.value, marker);
      CutIsBordered(line, ks, i, c.value + 3);
    }
  }

  lemma SpanIsBordered(line: string, j: nat)
    requires j <= |line| && (j > 0 ==> IsMark(line[j - 1]))
    ensures Within(Span(j, |line|), |line|) && Bordered(line, Span(j, |line|))
  {
    hide IsMark, Span;
    var ks := Span(j, |line|);
    forall k | k in ks ensures BorderedAt(line, ks, k) {
      assert k > j ==> ks[k - 1 - j] == k - 1;
      assert k + 1 < |line| ==> ks[k + 1 - j] == k + 1;
    }
  }

  /** Every cut of a line, the cut up to the end of a carried docstring included, is bordered by markers. */
  lemma KeptFromIsBordered(line: string, open: Option<Quote>)
    ensures Within(KeptFrom(line, open).0, |line|) && Bordered(line, KeptFrom(line, open).0)
  {
    hide StripKept, Bordered, HasAt;
    if open.None? {
      SpanIsBordered(line, 0);
      KeptIsBordered(line, Span(0, |line|));
    } else {
      var i := Find(line, Spell(open.value), 0);
      if i.Some? {
        SignIsMark(line, i.value, Triple(open.value));
        SpanIsBordered(line, i.value + 3);
        KeptIsBordered(line, Span(i.value + 3, |line|));
      } else {
        NothingIsBordered(line);
      }
    }
  }

  lemma NothingIsBordered(line: string)
    ensures Bordered(line, [])
  {}

  // ---- glue ----

  /** Before the kept character `x` there is a cut, with word characters on both sides of it. */
  predicate Glued(line: string, ks: seq<nat>, x: nat)
    requires Within(ks, |line|)
  {
    0 < x < |ks| && ks[x] != ks[x - 1] + 1 && IsWord(line[ks[x - 1]]) && IsWord(line[ks[x]])
  }

  predicate GlueFree(line: string, ks: seq<nat>)
    requires Within(ks, |line|)
  {
    forall x :: 0 < x < |ks| ==> !Glued(line, ks, x)
  }

  /** The `n` kept characters from `k` on stand side by side in the source. */
  predicate Contiguous(ks: seq<nat>, k: nat, n: nat)
    requires k + n <= |ks|
  {
    forall x :: k < x < k + n ==> ks[x] == ks[x - 1] + 1
  }

  predicate IsWordText(w: string) {
    w != "" && forall k :: 0 <= k < |w| ==> IsWord(w[k])
  }

  lemma {:induction false} ContiguousRun(ks: seq<nat>, k: nat, n: nat, x: nat)
    requires k + n <= |ks| && Contiguous(ks, k, n) && x < n
    ensures ks[k + x] == ks[k] + x
  {
    if x == 0 {
    } else {
      ContiguousRun(ks, k, n, x - 1);
      assert ks[k + x] == ks[k + x - 1] + 1;
    }
  }

  /** A whole word of the output whose characters stand side by side is a whole word of the source. */
  lemma ContiguousIsMentioned(line: string, ks: seq<nat>, k: nat, w: string)
    requires Within(ks, |line|) && Bordered(line, ks) && w != "" && WholeWordAt(Pick(line, ks), k, w)
    requires Contiguous(ks, k, |w|)
    ensures WholeWordAt(line, ks[k], w)
  {
    hide IsWord, IsMark, HasAt, Bordered, Contiguous, WordStarts, WordEnds, Pick;
    PlaceIsOffset(Pick(line, ks), k, w);
    ContiguousStands(line, ks, k, w);
    ContiguousRun(ks, k, |w|, |w| - 1);
    StartIsWordStart(line, ks, k);
    EndIsWordEnd(line, ks, k + |w|);
  }

  lemma ContiguousStands(line: string, ks: seq<nat>, k: nat, w: string)
    requires Within(ks, |line|) && w != "" && HasAt(Pick(line, ks), k, w) && Contiguous(ks, k, |w|)
    ensures HasAt(line, ks[k], w)
  {
    hide Contiguous, HasAt, Pick;
    var out := Pick(line, ks);
    HasAtFits(out, k, w);
    ContiguousRun(ks, k, |w|, |w| - 1);
    forall x | 0 <= x < |w| ensures line[ks[k] + x] == w[x] {
      ContiguousRun(ks, k, |w|, x);
      HasAtChar(out, k, w, x);
    }
    SpelledOut(line, ks[k], w);
  }

  lemma HasAtFits(s: string, k: int, w: string)
    requires HasAt(s, k, w)
    ensures 0 <= k && k + |w| <= |s|
  {}

  lemma SpelledOut(line: string, i: nat, w: string)
    requires i + |w| <= |line| && forall x :: 0 <= x < |w| ==> line[i + x] == w[x]
    ensures HasAt(line, i, w)
  {
    assert line[i..i + |w|] == w;
  }

  lemma BorderOf(line: string, ks: seq<nat>, x: nat)
    requires Within(ks, |line|) && Bordered(line, ks) && x < |ks|
    ensures Increasing(ks) && BorderedAt(line, ks, ks[x])
  {
    assert ks[x] in ks;
  }

  lemma StartIsWordStart(line: string, ks: seq<nat>, k: nat)
    requires Within(ks, |line|) && Bordered(line, ks) && k < |ks| && WordStarts(Pick(line, ks), k)
    ensures WordStarts(line, ks[k])
  {
    hide IsWord, IsMark, Bordered, Increasing, Pick;
    var p := ks[k];
    BorderOf(line, ks, k);
    if p > 0 {
      if p - 1 in ks {
        var z :| 0 <= z < |ks| && ks[z] == p - 1;
        IncreasingNext(ks, z, k);
        assert line[p - 1] == Pick(line, ks)[z];
      } else {
        MarkIsNoWord(line[p - 1]);
      }
    }
  }

  lemma EndIsWordEnd(line: string, ks: seq<nat>, e: nat)
    requires Within(ks, |line|) && Bordered(line, ks) && 0 < e <= |ks| && WordEnds(Pick(line, ks), e)
    ensures WordEnds(line, ks[e - 1] + 1)
  {
    hide IsWord, IsMark, Bordered, Increasing, Pick;
    var p := ks[e - 1];
    BorderOf(line, ks, e - 1);
    if p + 1 < |line| {
      if p + 1 in ks {
        var z :| 0 <= z < |ks| && ks[z] == p + 1;
        IncreasingNext(ks, e - 1, z);
        assert line[p + 1] == Pick(line, ks)[z];
      } else {
        MarkIsNoWord(line[p + 1]);
      }
    }
  }

  /** A word of the output is contiguous in the source exactly when no cut glues inside it. */
  lemma ContiguousIffNoGlue(line: string, ks: seq<nat>, k: nat, w: string)
    requires Within(ks, |line|) && IsWordText(w) && HasAt(Pick(line, ks), k, w)
    ensures Contiguous(ks, k, |w|) <==> forall x :: k < x < k + |w| ==> !Glued(line, ks, x)
  {
    hide IsWord;
    var out := Pick(line, ks);
    forall x | k < x < k + |w| ensures Glued(line, ks, x) <==> ks[x] != ks[x - 1] + 1 {
      HasAtChar(out, k, w, x - k);
      HasAtChar(out, k, w, x - 1 - k);
      assert IsWord(w[x - k]) && IsWord(w[x - 1 - k]);
    }
  }

  // ---- when the remover makes words ----

  function RunStart(s: string, j: nat): (i: nat)
    requires j <= |s|
    ensures i <= j && WordStarts(s, i) && forall k :: i <= k < j ==> IsWord(s[k])
  {
    if 0 < j && IsWord(s[j - 1]) then RunStart(s, j - 1) else j
  }

  function RunEnd(s: string, i: nat): (j: nat)
    requires i <= |s|
    ensures i <= j <= |s| && WordEnds(s, j) && forall k :: i <= k < j ==> IsWord(s[k])
    decreases |s| - i
  {
    if i < |s| && IsWord(s[i]) then RunEnd(s, i + 1) else i
  }

  /** A word of the output whose characters do not stand side by side in the source. */
  ghost predicate GluedWordAt(line: string, ks: seq<nat>, k: nat, w: string)
    requires Within(ks, |line|)
  {
    IsWordText(w) && WholeWordAt(Pick(line, ks), k, w) && !Contiguous(ks, k, |w|)
  }

  /** The output holds such a word exactly when some cut has word characters on both sides. */
  lemma GluedWordIffGlue(line: string, ks: seq<nat>)
    requires Within(ks, |line|)
    ensures (exists k, w :: GluedWordAt(line, ks, k, w)) <==> !GlueFree(line, ks)
  {
    hide Contiguous, Glued;
    if k, w :| GluedWordAt(line, ks, k, w) {
      ContiguousIffNoGlue(line, ks, k, w);
    }
    if x :| 0 < x < |ks| && Glued(line, ks, x) {
      var k, w := WordAround(line, ks, x);
    }
  }

  lemma WordAround(line: string, ks: seq<nat>, x: nat) returns (k: nat, w: string)
    requires Within(ks, |line|) && Glued(line, ks, x)
    ensures GluedWordAt(line, ks, k, w) && k < x < k + |w|
  {
    hide IsWord;
    var out := Pick(line, ks);
    k := RunStart(out, x);
    var e := RunEnd(out, x);
    assert IsWord(out[x - 1]) && IsWord(out[x]);
    w := out[k..e];
    assert k < x < e by { RunMeets(out, x); }
    assert forall j :: 0 <= j < |w| ==> w[j] == out[k + j];
  }

  lemma RunMeets(s: string, x: nat)
    requires 0 < x < |s| && IsWord(s[x - 1]) && IsWord(s[x])
    ensures RunStart(s, x) < x < RunEnd(s, x)
  {}

  // ---- lines ----

  ghost predicate AnyMentions(lines: seq<string>, x: string) {
    exists line :: line in lines && Mentions(line, x)
  }

  /** The kept offsets of the line with index `i` of a file. */
  function KeptOfLine(lines: seq<string>, i: nat): (ks: seq<nat>)
    requires i < |lines|
    ensures Within(ks, |lines[i]|)
  {
    KeptLinesAreStripped(lines, None);
    KeptLines(lines, None)[i]
  }

  /** No cut of the file has word characters on both sides. */
  predicate GlueFreeLines(lines: seq<string>) {
    forall i :: 0 <= i < |lines| ==> GlueFree(lines[i], KeptOfLine(lines, i))
  }

  /** Some cut of the file makes the word `w` in the output. */
  ghost predicate MakesWord(lines: seq<string>, w: string) {
    exists i, k :: 0 <= i < |lines| && GluedWordAt(lines[i], KeptOfLine(lines, i), k, w)
  }

  lemma {:induction false} LinesAreBordered(lines: seq<string>, open: Option<Quote>, i: nat)
    requires i < |lines|
    ensures Within(KeptLines(lines, open)[i], |lines[i]|) && Bordered(lines[i], KeptLines(lines, open)[i])
  {
    hide KeptFrom, Bordered;
    KeptFromIsBordered(lines[0], open);
    if i == 0 {
    } else {
      LinesAreBordered(lines[1..], KeptFrom(lines[0], open).1, i - 1);
    }
  }

  /** A word of the stripped file stands in the file, or a cut has made it. */
  lemma StrippedWordsAreSourceWords(lines: seq<string>, w: string)
    requires IsWordText(w) && AnyMentions(StripLines(lines, None), w)
    ensures AnyMentions(lines, w) || MakesWord(lines, w)
  {
    hide StripLines, KeptLines, WholeWordAt, Contiguous, Bordered, IsWordText;
    var out := StripLines(lines, None);
    var piece :| piece in out && Mentions(piece, w);
    var i :| 0 <= i < |out| && out[i] == piece;
    var k :| WholeWordAt(piece, k, w);
    KeptLinesAreStripped(lines, None);
    LinesAreBordered(lines, None, i);
    var ks := KeptOfLine(lines, i);
    PlaceIsOffset(piece, k, w);
    if Contiguous(ks, k, |w|) {
      WordTextIsNotEmpty(w);
      ContiguousIsMentioned(lines[i], ks, k, w);
      assert Mentions(lines[i], w);
    } else {
      assert GluedWordAt(lines[i], ks, k, w);
    }
  }

  /** A made word stands in the stripped file. */
  lemma MadeWordsAreStripped(lines: seq<string>, w: string)
    requires MakesWord(lines, w)
    ensures AnyMentions(StripLines(lines, None), w)
  {
    hide StripLines, KeptLines, WholeWordAt, Contiguous, IsWordText;
    var i: nat, k: nat :| i < |lines| && GluedWordAt(lines[i], KeptOfLine(lines, i), k, w);
    KeptLinesAreStripped(lines, None);
    var piece := StripLines(lines, None)[i];
    assert piece == Pick(lines[i], KeptOfLine(lines, i));
    assert WholeWordAt(piece, k, w);
    assert piece in StripLines(lines, None) && Mentions(piece, w);
  }

  lemma PlaceIsOffset(s: string, k: int, w: string)
    requires WholeWordAt(s, k, w)
    ensures 0 <= k && k + |w| <= |s|
  {}

  lemma WordTextIsNotEmpty(w: string)
    requires IsWordText(w)
    ensures w != ""
  {}

  /** The stripped file holds a made word exactly when some cut of the file glues. */
  lemma MakesWordIffGlue(lines: seq<string>)
    ensures (exists w :: MakesWord(lines, w)) <==> !GlueFreeLines(lines)
  {
    hide GlueFree, KeptOfLine, GluedWordAt;
    forall i | 0 <= i < |lines|
      ensures (exists k, w :: GluedWordAt(lines[i], KeptOfLine(lines, i), k, w)) <==> !GlueFree(lines[i], KeptOfLine(lines, i))
    {
      GluedWordIffGlue(lines[i], KeptOfLine(lines, i));
    }
    if w :| MakesWord(lines, w) {
      var i, k :| 0 <= i < |lines| && GluedWordAt(lines[i], KeptOfLine(lines, i), k, w);
    }
    if !GlueFreeLines(lines) {
      var i :| 0 <= i < |lines| && !GlueFree(lines[i], KeptOfLine(lines, i));
      var k, w :| GluedWordAt(lines[i], KeptOfLine(lines, i), k, w);
      assert MakesWord(lines, w);
    }
  }
}
