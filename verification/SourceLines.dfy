/** When the lines that the redactor cuts a source into are the lines that Python's parser counts. */
module SourceLines {
  import opened Text
  import opened DiffParser

  /** `source.splitlines(keepends=True)`. */
  function KeepEnds(s: string): seq<string>
    decreases |s|
  {
    if s == "" then []
    else
      var k := FirstEnd(s);
      [s[..k]] + KeepEnds(s[k..])
  }

  /** The end of the first line with its break. */
  function FirstEnd(s: string): (k: nat)
    requires s != ""
    ensures 0 < k <= |s|
  {
    var j := BreakAt(s, 0);
    if j == |s| then j
    else if s[j] == '\r' && j + 1 < |s| && s[j + 1] == '\n' then j + 2
    else j + 1
  }

  /**
    The lines as `tokenize` numbers them: only a line feed ends one. `ast` also ends a line at a lone
    carriage return, which text that was read with universal line ends does not hold.
   */
  function CountedLines(s: string): seq<string>
    decreases |s|
  {
    if s == "" then []
    else
      var j := LineEnd(s, 0);
      if j == |s| then [s] else [s[..j + 1]] + CountedLines(s[j + 1..])
  }

  /** Before the last character, a break is a line feed or a carriage return in front of one. */
  predicate IsOrdinary(s: string) {
    forall i :: 0 <= i < |s| - 1 ==> IsOrdinaryAt(s, i)
  }

  predicate IsOrdinaryAt(s: string, i: nat)
    requires i + 1 < |s|
  {
    IsBreak(s[i]) ==> s[i] == '\n' || (s[i] == '\r' && s[i + 1] == '\n')
  }

  lemma OrdinaryRest(s: string, k: nat)
    requires 0 < k <= |s| && s[k - 1] == '\n'
    requires forall i :: 0 <= i < k - 1 && IsBreak(s[i]) ==> s[i] == '\r' && s[i + 1] == '\n'
    ensures IsOrdinary(s) <==> IsOrdinary(s[k..])
  {
    hide IsBreak;
    var rest := s[k..];
    assert forall i :: 0 <= i < |rest| ==> rest[i] == s[k + i];
    if IsOrdinary(rest) {
      forall i | 0 <= i < |s| - 1 ensures IsOrdinaryAt(s, i) {
        if k <= i {
          assert IsOrdinaryAt(rest, i - k) && rest[i - k] == s[i] && rest[i + 1 - k] == s[i + 1];
        }
      }
    }
    if IsOrdinary(s) {
      forall i | 0 <= i < |rest| - 1 ensures IsOrdinaryAt(rest, i) {
        assert IsOrdinaryAt(s, k + i) && s[k + i] == rest[i] && s[k + i + 1] == rest[i + 1];
      }
    }
  }

  /** The first line ends in a line feed for both, and the break is the first of the text. */
  lemma FirstAgrees(s: string)
    requires s != "" && s[FirstEnd(s) - 1] == '\n'
    ensures var k := FirstEnd(s);
      KeepEnds(s) == [s[..k]] + KeepEnds(s[k..]) && CountedLines(s) == [s[..k]] + CountedLines(s[k..])
      && (IsOrdinary(s) <==> IsOrdinary(s[k..]))
  {
    hide IsBreak, IsOrdinary, CountedLines, KeepEnds;
    var j, k := BreakAt(s, 0), FirstEnd(s);
    NewlineIsBreak();
    FirstIsNewline(s);
    LineEndIs(s, k - 1);
    OrdinaryRest(s, k);
    CountedStep(s, k);
    KeepStep(s);
  }

  lemma FirstIsNewline(s: string)
    requires s != "" && s[FirstEnd(s) - 1] == '\n'
    ensures var k := FirstEnd(s);
      (forall i :: 0 <= i < k - 1 ==> s[i] != '\n')
      && forall i :: 0 <= i < k - 1 && IsBreak(s[i]) ==> s[i] == '\r' && s[i + 1] == '\n'
  {
    hide IsBreak;
    NewlineIsBreak();
    var j := BreakAt(s, 0);
    assert forall i :: 0 <= i < j ==> !IsBreak(s[i]);
  }

  lemma CountedStep(s: string, k: nat)
    requires 0 < k <= |s| && LineEnd(s, 0) == k - 1
    ensures CountedLines(s) == [s[..k]] + CountedLines(s[k..])
  {
    hide LineEnd;
  }

  lemma KeepStep(s: string)
    requires s != ""
    ensures KeepEnds(s) == [s[..FirstEnd(s)]] + KeepEnds(s[FirstEnd(s)..])
  {}

  /** Another break that ends no line for the parser, with more text behind it. */
  lemma FirstDiffers(s: string)
    requires s != "" && s[FirstEnd(s) - 1] != '\n' && BreakAt(s, 0) < |s| - 1
    ensures KeepEnds(s) != CountedLines(s) && !IsOrdinary(s)
  {
    hide IsBreak, CountedLines, KeepEnds, IsOrdinary;
    var j := BreakAt(s, 0);
    NewlineIsBreak();
    KeepStep(s);
    CountedIsLonger(s, j);
    NotOrdinary(s, j);
    assert KeepEnds(s)[0] == s[..j + 1];
  }

  lemma NotOrdinary(s: string, j: nat)
    requires j < |s| - 1 && IsBreak(s[j]) && s[j] != '\n' && !(s[j] == '\r' && s[j + 1] == '\n')
    ensures !IsOrdinary(s)
  {
    assert !IsOrdinaryAt(s, j);
  }

  lemma CountedIsLonger(s: string, j: nat)
    requires j < |s| - 1 && forall i :: 0 <= i <= j ==> s[i] != '\n'
    ensures CountedLines(s) != [] && |CountedLines(s)[0]| > j + 1
  {
    var m := LineEnd(s, 0);
    assert m > j;
  }

  /** Both numberings agree exactly on ordinary sources: a form feed inside one shifts all spans behind it. */
  lemma {:induction false} NumberingsAgree(s: string)
    ensures KeepEnds(s) == CountedLines(s) <==> IsOrdinary(s)
    decreases |s|
  {
    hide IsBreak, CountedLines, KeepEnds, IsOrdinary;
    if s == "" {
      NothingToNumber();
    } else {
      var k := FirstEnd(s);
      if s[k - 1] == '\n' {
        FirstAgrees(s);
        NumberingsAgree(s[k..]);
        SameFirst(s[..k], KeepEnds(s[k..]), CountedLines(s[k..]));
      } else if BreakAt(s, 0) < |s| - 1 {
        FirstDiffers(s);
      } else {
        LastEnd(s);
        OneLine(s);
      }
    }
  }

  lemma NothingToNumber()
    ensures KeepEnds("") == [] && CountedLines("") == [] && IsOrdinary("")
  {}

  lemma LastEnd(s: string)
    requires s != "" && BreakAt(s, 0) >= |s| - 1 && s[FirstEnd(s) - 1] != '\n'
    ensures s[|s| - 1] != '\n'
  {}

  lemma NewlineIsBreak()
    ensures IsBreak('\n') && IsBreak('\r')
  {}

  lemma SameFirst(line: string, a: seq<string>, b: seq<string>)
    ensures [line] + a == [line] + b <==> a == b
  {
    assert ([line] + a)[1..] == a && ([line] + b)[1..] == b;
  }

  lemma OneLine(s: string)
    requires s != "" && BreakAt(s, 0) >= |s| - 1 && s[|s| - 1] != '\n'
    ensures KeepEnds(s) == [s] && CountedLines(s) == [s] && IsOrdinary(s)
  {
    hide IsBreak, KeepEnds, CountedLines, IsOrdinary;
    NewlineIsBreak();
    NothingToNumber();
    assert s[..|s|] == s && s[|s|..] == "";
    KeepStep(s);
    CountedWhole(s);
    NoEarlyBreak(s);
  }

  lemma CountedWhole(s: string)
    requires s != "" && forall i :: 0 <= i < |s| ==> s[i] != '\n'
    ensures CountedLines(s) == [s]
  {
    LineEndIs(s, |s|);
  }

  lemma NoEarlyBreak(s: string)
    requires s != "" && BreakAt(s, 0) >= |s| - 1
    ensures IsOrdinary(s)
  {
    hide IsBreak;
    assert forall i :: 0 <= i < |s| - 1 ==> !IsBreak(s[i]);
  }
}
