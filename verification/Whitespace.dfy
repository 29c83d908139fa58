/** Splitting a text into words, and the white-space normalisation under which quotes are compared. */
module Whitespace {
  import opened Text

  // ---- words ----

  /** The end of the maximal run of non-space characters that starts at `i`. */
  function WordEnd(s: string, i: nat): (j: nat)
    requires i <= |s|
    ensures i <= j <= |s|
    ensures i < |s| && !IsSpace(s[i]) ==> i < j
    ensures forall k :: i <= k < j ==> !IsSpace(s[k])
    ensures j < |s| ==> IsSpace(s[j])
    decreases |s| - i
  {
    if i < |s| && !IsSpace(s[i]) then WordEnd(s, i + 1) else i
  }

  predicate IsPlainWord(w: string) {
    w != "" && forall k :: 0 <= k < |w| ==> !IsSpace(w[k])
  }

  /** `s.split()`. */
  function Words(s: string): (ws: seq<string>)
    ensures forall w :: w in ws ==> IsPlainWord(w)
    decreases |s|
  {
    var i := SkipSpaces(s, 0);
    if i == |s| then []
    else
      var j := WordEnd(s, i);
      [s[i..j]] + Words(s[j..])
  }

  /** `" ".join(words)`. */
  function JoinWords(ws: seq<string>): string {
    if ws == [] then ""
    else if |ws| == 1 then ws[0]
    else ws[0] + " " + JoinWords(ws[1..])
  }

  lemma WordEndIs(s: string, i: nat, j: nat)
    requires i <= j <= |s| && (forall k :: i <= k < j ==> !IsSpace(s[k])) && (j < |s| ==> IsSpace(s[j]))
    ensures WordEnd(s, i) == j
  {
  }

  lemma WordsStep(space: string, w: string, rest: string)
    requires Blank(space) && IsPlainWord(w) && (rest != "" ==> IsSpace(rest[0]))
    ensures Words(space + w + rest) == [w] + Words(rest)
  {
    var s := space + w + rest;
    var i, j := |space|, |space| + |w|;
    assert forall k :: 0 <= k < i ==> s[k] == space[k] && space[k] in space;
    SkipSpacesIs(s, 0, i);
    assert forall k :: i <= k < j ==> s[k] == w[k - i];
    WordEndIs(s, i, j);
    assert s[i..j] == w && s[j..] == rest;
  }

  lemma BlankByIndex(s: string)
    ensures Blank(s) <==> SkipSpaces(s, 0) == |s|
  {
    var i := SkipSpaces(s, 0);
    assert i < |s| ==> s[i] in s;
  }

  lemma WordsBlank(s: string)
    ensures Words(s) == [] <==> Blank(s)
  {
    BlankByIndex(s);
  }

  /** A text that is not blank is white space, a word, and a rest that is empty or begins with white space. */
  lemma FirstWord(s: string) returns (space: string, w: string, rest: string)
    requires !Blank(s)
    ensures s == space + w + rest && Blank(space) && IsPlainWord(w) && (rest != "" ==> IsSpace(rest[0]))
    ensures |rest| < |s|
  {
    hide IsSpace;
    BlankByIndex(s);
    var i := SkipSpaces(s, 0);
    var j := WordEnd(s, i);
    space, w, rest := s[..i], s[i..j], s[j..];
  }

  lemma BlankAppend(a: string, b: string)
    ensures Blank(a + b) <==> Blank(a) && Blank(b)
  {
    assert forall c :: c in a + b <==> c in a || c in b;
  }

  lemma BlankOne(c: char)
    ensures Blank([c]) <==> IsSpace(c)
  {
    assert c in [c];
  }

  lemma WordsAfterBlank(space: string, b: string)
    requires Blank(space)
    ensures Words(space + b) == Words(b)
  {
    hide Words, Blank, IsSpace;
    if Blank(b) {
      BlankAppend(space, b);
      WordsBlank(b);
      WordsBlank(space + b);
    } else {
      var s1, w, rest := FirstWord(b);
      WordsStep(s1, w, rest);
      BlankAppend(space, s1);
      assert space + b == (space + s1) + w + rest;
      WordsStep(space + s1, w, rest);
    }
  }

  /** White space between two texts separates their words. */
  lemma {:induction false} WordsAppend(a: string, c: char, b: string)
    requires IsSpace(c)
    ensures Words(a + [c] + b) == Words(a) + Words(b)
    decreases |a|
  {
    hide Words, Blank, IsSpace, IsPlainWord;
    if Blank(a) {
      WordsBlank(a);
      BlankOne(c);
      BlankAppend(a, [c]);
      WordsAfterBlank(a + [c], b);
      assert [] + Words(b) == Words(b);
    } else {
      var space, w, rest := FirstWord(a);
      WordsStep(space, w, rest);
      var more := rest + [c] + b;
      assert more[0] == if rest == "" then c else rest[0];
      WordsStep(space, w, more);
      assert a + [c] + b == space + w + more;
      WordsAppend(rest, c, b);
      assert [w] + Words(rest) + Words(b) == [w] + (Words(rest) + Words(b));
    }
  }

  lemma {:induction false} JoinWordsAppend(a: seq<string>, b: seq<string>)
    ensures JoinWords(a + b) == if a == [] then JoinWords(b) else if b == [] then JoinWords(a) else JoinWords(a) + " " + JoinWords(b)
  {
    if a == [] {
      assert a + b == b;
    } else if b == [] {
      assert a + b == a;
    } else {
      var ab := a + b;
      assert ab[0] == a[0] && ab[1..] == a[1..] + b;
      JoinWordsAppend(a[1..], b);
      if |a| > 1 {
        assert a[0] + " " + (JoinWords(a[1..]) + " " + JoinWords(b)) == a[0] + " " + JoinWords(a[1..]) + " " + JoinWords(b);
      }
    }
  }

  // ---- white-space normalisation ----

  /** `re.sub(r"\s+", " ", s)`. */
  function Collapse(s: string): string
    decreases |s|
  {
    if s == "" then ""
    else if IsSpace(s[0]) then " " + Collapse(s[SkipSpaces(s, 0)..])
    else [s[0]] + Collapse(s[1..])
  }

  /** `_normalize`. */
  function Normalize(s: string): string {
    Strip(Collapse(s))
  }

  lemma {:induction false} CollapseWord(w: string, rest: string)
    requires forall k :: 0 <= k < |w| ==> !IsSpace(w[k])
    ensures Collapse(w + rest) == w + Collapse(rest)
  {
    if w == "" {
      assert w + rest == rest;
    } else {
      assert (w + rest)[0] == w[0] && (w + rest)[1..] == w[1..] + rest;
      CollapseWord(w[1..], rest);
    }
  }

  lemma CollapseSpace(space: string, rest: string)
    requires space != "" && Blank(space) && (rest != "" ==> !IsSpace(rest[0]))
    ensures Collapse(space + rest) == " " + Collapse(rest)
  {
    var s := space + rest;
    assert forall k :: 0 <= k < |space| ==> s[k] == space[k] && space[k] in space;
    SkipSpacesIs(s, 0, |space|);
    assert s[|space|..] == rest;
  }

  lemma CollapseLead(space: string, core: string)
    requires Blank(space) && (core != "" ==> !IsSpace(core[0]))
    ensures Collapse(space + core) == (if space == "" then "" else " ") + Collapse(core)
  {
    if space == "" {
      assert space + core == core;
      assert "" + Collapse(core) == Collapse(core);
    } else {
      CollapseSpace(space, core);
    }
  }

  lemma CollapseBlank(s: string)
    requires Blank(s)
    ensures Collapse(s) == if s == "" then "" else " "
  {
    CollapseLead(s, "");
    assert s + "" == s;
  }

  lemma Regroup(lead: string, w: string, core: string, trail: string)
    ensures lead + (w + (" " + core + trail)) == lead + (w + " " + core) + trail
  {
  }

  /** The words joined by single spaces, with at most a space before and a space after. */
  lemma {:induction false} CollapseShape(s: string) returns (lead: string, trail: string)
    ensures Collapse(s) == lead + JoinWords(Words(s)) + trail && Blank(lead) && Blank(trail)
    ensures Words(s) != [] ==> lead == if IsSpace(s[0]) then " " else ""
    decreases |s|
  {
    hide Collapse, Words, IsSpace;
    SpaceIsBlank();
    if Blank(s) {
      WordsBlank(s);
      CollapseBlank(s);
      lead, trail := "", Collapse(s);
    } else {
      var space, w, rest := FirstWord(s);
      WordsStep(space, w, rest);
      lead := if space == "" then "" else " ";
      assert s[0] == if space == "" then w[0] else space[0];
      assert space != "" ==> space[0] in space;
      assert s == space + (w + rest);
      CollapseLead(space, w + rest);
      CollapseWord(w, rest);
      if Blank(rest) {
        WordsBlank(rest);
        CollapseBlank(rest);
        trail := Collapse(rest);
        assert lead + (w + trail) == lead + w + trail;
      } else {
        WordsBlank(rest);
        assert rest != "";
        var lead1, trail1 := CollapseShape(rest);
        trail := trail1;
        assert ([w] + Words(rest))[1..] == Words(rest);
        Regroup(lead, w, JoinWords(Words(rest)), trail);
      }
    }
  }

  lemma SpaceIsBlank()
    ensures Blank(" ") && Blank("")
  {
  }

  lemma {:induction false} JoinWordsEnds(ws: seq<string>)
    requires ws != [] && forall w :: w in ws ==> IsPlainWord(w)
    ensures var s := JoinWords(ws); s != "" && !IsSpace(s[0]) && !IsSpace(s[|s| - 1])
  {
    assert IsPlainWord(ws[0]);
    if |ws| == 1 {
    } else {
      JoinWordsEnds(ws[1..]);
    }
  }

  lemma StripMiddle(lead: string, core: string, trail: string)
    requires Blank(lead) && Blank(trail)
    requires core != "" ==> !IsSpace(core[0]) && !IsSpace(core[|core| - 1])
    ensures Strip(lead + core + trail) == core
  {
    hide IsSpace;
    var s := lead + core + trail;
    if core == "" {
      BlankAppend(lead, trail);
      assert s == lead + trail;
      StripBlank(s);
    } else {
      assert forall k :: 0 <= k < |lead| ==> s[k] == lead[k] && lead[k] in lead;
      SkipSpacesIs(s, 0, |lead|);
      var e := |lead| + |core|;
      assert forall k :: e <= k < |s| ==> s[k] == trail[k - e] && trail[k - e] in trail;
      TrimEndIs(s, |lead|, |s|, e);
      assert s[|lead|..e] == core;
    }
  }

  lemma TrimEndIs(s: string, i: nat, j: nat, e: nat)
    requires i < e <= j <= |s| && (forall k :: e <= k < j ==> IsSpace(s[k])) && !IsSpace(s[e - 1])
    ensures TrimEnd(s, i, j) == e
  {
  }

  /** Normalising is splitting into words and joining them by single spaces. */
  lemma NormalizeIsWords(s: string)
    ensures Normalize(s) == JoinWords(Words(s))
  {
    var lead, trail := CollapseShape(s);
    if Words(s) != [] {
      JoinWordsEnds(Words(s));
    }
    StripMiddle(lead, JoinWords(Words(s)), trail);
  }

  lemma {:induction false} WordsSplit(s: string, j: nat)
    requires j < |s| && s[j] == '\n'
    ensures Words(s) == Words(s[..j]) + Words(s[j + 1..])
  {
    hide Words;
    assert s == s[..j] + ['\n'] + s[j + 1..];
    WordsAppend(s[..j], '\n', s[j + 1..]);
  }

  lemma JoinedPart(a: seq<string>, m: seq<string>, b: seq<string>)
    ensures Contains(JoinWords(a + m + b), JoinWords(m))
  {
    hide JoinWords, Contains;
    JoinWordsAppend(a, m);
    JoinWordsAppend(a + m, b);
    JoinNothing();
    var core := JoinWords(m);
    var front := if a == [] then "" else if m == [] then JoinWords(a) else JoinWords(a) + " ";
    assert JoinWords(a + m) == front + core;
    var back := if b == [] then "" else if a + m == [] then JoinWords(b) else " " + JoinWords(b);
    assert JoinWords(a + m + b) == front + core + back;
    MiddleIsContained(front, core, back);
  }

  lemma JoinNothing()
    ensures JoinWords([]) == ""
  {}

  lemma MiddleIsContained(front: string, core: string, back: string)
    ensures Contains(front + core + back, core)
  {
    HasMiddle(front, core, back);
  }

  lemma {:induction false} LineWords(s: string, i: nat) returns (a: seq<string>, b: seq<string>)
    requires i < |SplitLines(s)|
    ensures Words(s) == a + Words(SplitLines(s)[i]) + b
    decreases |s|
  {
    hide Words;
    var j := LineEnd(s, 0);
    a, b := [], [];
    if j == |s| {
      assert SplitLines(s)[i] == s;
      assert [] + Words(s) + [] == Words(s);
    } else {
      WordsSplit(s, j);
      var head, tail := Words(s[..j]), Words(s[j + 1..]);
      if i == 0 {
        b := tail;
        assert [] + head + b == head + tail;
      } else {
        var a1, b1 := LineWords(s[j + 1..], i - 1);
        a, b := head + a1, b1;
        var line := Words(SplitLines(s[j + 1..])[i - 1]);
        assert SplitLines(s)[i] == SplitLines(s[j + 1..])[i - 1];
        assert head + (a1 + line + b1) == head + a1 + line + b1;
      }
    }
  }

  /** The normal form of a text contains the normal form of each of its lines. */
  lemma QuotedLine(s: string, i: nat)
    requires i < |SplitLines(s)|
    ensures Contains(Normalize(s), Normalize(SplitLines(s)[i]))
  {
    var line := SplitLines(s)[i];
    var a, b := LineWords(s, i);
    NormalizeIsWords(s);
    NormalizeIsWords(line);
    JoinedPart(a, Words(line), b);
  }
}
