/** How the closing-intent detector reads a text: its two readings, its declarations, its clause window. */
module ClosingText {
  import opened Wrappers
  import opened Text
  import opened Whitespace
  import opened Markers

  // ---- the two readings of a body ----

  /** `_body_as_author_declared`: backticks are dropped, what they fence is kept. */
  function AuthorReading(s: string): string {
    if s == "" then "" else (if s[0] == '`' then "" else [s[0]]) + AuthorReading(s[1..])
  }

  /** Every stretch from one `mark` to the next becomes a space. */
  function DropFenced(s: string, mark: string): string
    requires mark != ""
    decreases |s|
  {
    match Find(s, mark, 0)
    case None => s
    case Some(i) =>
      match Find(s, mark, i + |mark|)
      case None => s
      case Some(j) => s[..i] + " " + DropFenced(s[j + |mark|..], mark)
  }

  /** `_body_as_github_parses`: fenced blocks go first, then inline spans. */
  function GithubReading(s: string): string {
    DropFenced(DropFenced(s, "```"), "`")
  }

  // ---- keyword references ----

  /** The three keyword patterns; the words are in lower case and matched in any case. */
  datatype Pattern = Closing | Canonical | NonClosing

  function KeywordsOf(p: Pattern): seq<string> {
    match p
    case Closing => ["close", "closes", "closed", "fix", "fixes", "fixed", "resolve", "resolves", "resolved"]
    case Canonical => ["closes", "fixes", "resolves"]
    case NonClosing => ["part of", "toward", "towards"]
  }

  /** `\b` for two patterns, `(?<![\w-])` for the canonical one. */
  predicate StartOk(p: Pattern, s: string, i: nat)
    requires i <= |s|
  {
    if p.Canonical? then i > 0 ==> !IsWord(s[i - 1]) && s[i - 1] != '-' else IsBoundary(s, i)
  }

  /** `\s*:?\s*#(\d+)` at `j`: the number and the end of the match. */
  function RefAt(s: string, j: nat): (r: Option<(nat, nat)>)
    requires j <= |s|
    ensures r.Some? ==> j < r.value.1 <= |s|
    ensures r.Some? ==> forall k :: j <= k < r.value.1 ==> IsSpace(s[k]) || s[k] == ':' || s[k] == '#' || IsDigit(s[k])
  {
    var a := SkipSpaces(s, j);
    var b := if a < |s| && s[a] == ':' then SkipSpaces(s, a + 1) else a;
    if b == |s| || s[b] != '#' then None
    else
      var e := DigitsEnd(s, b + 1);
      var digits := s[b + 1..e];
      assert forall k :: 0 <= k < |digits| ==> digits[k] == s[b + 1 + k];
      if digits == "" then None else Some((ParseNat(digits), e))
  }

  /** The keyword and a reference behind it. */
  function RefAfter(s: string, i: nat, w: string): Option<(nat, nat)>
    requires i <= |s|
  {
    if FoldHasAt(s, i, w) then RefAt(s, i + |w|) else None
  }

  function FirstKeyword(s: string, i: nat, words: seq<string>): (r: Option<(nat, nat)>)
    requires i <= |s|
    ensures r.Some? ==> exists w :: w in words && RefAfter(s, i, w) == r
    ensures r.None? ==> forall w :: w in words ==> RefAfter(s, i, w).None?
  {
    if words == [] then None
    else if RefAfter(s, i, words[0]).Some? then RefAfter(s, i, words[0])
    else FirstKeyword(s, i, words[1..])
  }

  /** The pattern matches at `i`: the issue number and the end of the match. */
  function MatchAt(p: Pattern, s: string, i: nat): (r: Option<(nat, nat)>)
    requires i <= |s|
  {
    if StartOk(p, s, i) then FirstKeyword(s, i, KeywordsOf(p)) else None
  }

  /** An issue that the pattern names somewhere in the text. */
  predicate Names(p: Pattern, s: string, n: nat) {
    exists i :: 0 <= i <= |s| && MatchAt(p, s, i).Some? && MatchAt(p, s, i).value.0 == n
  }

  /** `{int(m.group(1)) for m in pattern.finditer(s)}`: from left to right, each search resuming after the last match. */
  function Scan(p: Pattern, s: string, i: nat): set<nat>
    requires i <= |s|
    decreases |s| - i
  {
    if i == |s| then {}
    else match MatchAt(p, s, i)
      case None => Scan(p, s, i + 1)
      case Some((n, e)) =>
        MatchAdvances(p, s, i);
        {n} + Scan(p, s, e)
  }

  lemma {:induction false} MatchAdvances(p: Pattern, s: string, i: nat)
    requires i <= |s| && MatchAt(p, s, i).Some?
    ensures i < MatchAt(p, s, i).value.1 <= |s| && i < |s|
  {
    var w :| w in KeywordsOf(p) && RefAfter(s, i, w) == MatchAt(p, s, i);
  }

  predicate StartsKeyword(c: char) {
    Fold(c) in "cfrpt"
  }

  lemma KeywordStarts(p: Pattern, w: string)
    requires w in KeywordsOf(p)
    ensures w != "" && w[0] in "cfrpt"
    ensures forall k :: 0 <= k < |w| ==> w[k] != ' ' ==> 'a' <= w[k] <= 'z'
    ensures forall k :: 0 < k < |w| && w[k - 1] == ' ' ==> w[k] == 'o'
  {
    KeywordShape(p, w);
  }

  lemma {:induction false} KeywordShape(p: Pattern, w: string)
    requires w in KeywordsOf(p)
    ensures LooksLikeKeyword(w)
  {
    hide LooksLikeKeyword;
    ClosingShapes();
    ResolvingShapes();
    OtherShapes();
  }

  lemma ClosingShapes()
    ensures LooksLikeKeyword("close") && LooksLikeKeyword("closes") && LooksLikeKeyword("closed")
    ensures LooksLikeKeyword("fix") && LooksLikeKeyword("fixes") && LooksLikeKeyword("fixed")
  {}

  lemma ResolvingShapes()
    ensures LooksLikeKeyword("resolve") && LooksLikeKeyword("resolves") && LooksLikeKeyword("resolved")
  {}

  lemma OtherShapes()
    ensures LooksLikeKeyword("part of") && LooksLikeKeyword("toward") && LooksLikeKeyword("towards")
  {}

  predicate LooksLikeKeyword(w: string) {
    w != "" && w[0] in "cfrpt"
    && (forall k :: 0 <= k < |w| ==> w[k] != ' ' ==> 'a' <= w[k] <= 'z')
    && (forall k :: 0 < k < |w| && w[k - 1] == ' ' ==> w[k] == 'o')
  }

  lemma FoldedIsWord(c: char)
    requires 'a' <= Fold(c) <= 'z'
    ensures IsWord(c) && c != '-'
  {
  }

  lemma RefCharStartsNothing(c: char)
    requires IsSpace(c) || c == ':' || c == '#' || IsDigit(c)
    ensures !StartsKeyword(c)
  {
  }

  /** A match is a keyword and then characters that begin no keyword. */
  lemma {:induction false} MatchParts(p: Pattern, s: string, i: nat) returns (w: string)
    requires i <= |s| && MatchAt(p, s, i).Some?
    ensures w in KeywordsOf(p) && FoldHasAt(s, i, w)
    ensures forall k :: i + |w| <= k < MatchAt(p, s, i).value.1 ==> !StartsKeyword(s[k])
  {
    hide IsSpace, IsWord, StartsKeyword, KeywordsOf;
    w :| w in KeywordsOf(p) && RefAfter(s, i, w) == MatchAt(p, s, i);
    forall k | i + |w| <= k < MatchAt(p, s, i).value.1 ensures !StartsKeyword(s[k]) {
      RefCharStartsNothing(s[k]);
    }
  }

  lemma {:induction false} StartOfMatch(p: Pattern, s: string, i: nat)
    requires i < |s| && MatchAt(p, s, i).Some?
    ensures StartsKeyword(s[i]) && (IsWord(s[i]) && i > 0 ==> !IsWord(s[i - 1]))
  {
    hide KeywordsOf, RefAt, IsWord;
    StartOfMatchIsOk(p, s, i);
    var w :| w in KeywordsOf(p) && RefAfter(s, i, w) == MatchAt(p, s, i);
    KeywordStarts(p, w);
  }

  lemma StartOfMatchIsOk(p: Pattern, s: string, i: nat)
    requires i <= |s| && MatchAt(p, s, i).Some?
    ensures StartOk(p, s, i)
  {}

  /** Inside a keyword, a character is preceded by a letter, or is a space, or is the `o` of `part of`. */
  lemma InsideKeyword(p: Pattern, s: string, i: nat, w: string, j: nat)
    requires w in KeywordsOf(p) && FoldHasAt(s, i, w) && i < j < i + |w|
    ensures !StartsKeyword(s[j]) || (IsWord(s[j]) && IsWord(s[j - 1]))
  {
    KeywordStarts(p, w);
    var a, b := w[j - i - 1], w[j - i];
    assert Fold(s[j - 1]) == a && Fold(s[j]) == b;
    if a != ' ' && b != ' ' {
      FoldedIsWord(s[j - 1]);
      FoldedIsWord(s[j]);
    }
  }

  /** No match begins inside another one. */
  lemma {:induction false} MatchesAreApart(p: Pattern, s: string, i: nat, j: nat)
    requires i < j <= |s| && MatchAt(p, s, i).Some? && j < MatchAt(p, s, i).value.1
    ensures MatchAt(p, s, j).None?
  {
    hide MatchAt, KeywordsOf, StartsKeyword, IsWord, FoldHasAt;
    MatchAdvances(p, s, i);
    var w := MatchParts(p, s, i);
    if MatchAt(p, s, j).Some? {
      StartOfMatch(p, s, j);
      if j < i + |w| {
        InsideKeyword(p, s, i, w, j);
      }
    }
  }

  /** The scan finds every issue that the pattern names from offset `i` on. */
  lemma {:induction false} ScanFindsAll(p: Pattern, s: string, i: nat, n: nat)
    requires i <= |s|
    ensures n in Scan(p, s, i) <==> exists j :: i <= j <= |s| && MatchAt(p, s, j).Some? && MatchAt(p, s, j).value.0 == n
    decreases |s| - i
  {
    hide MatchAt;
    if i == |s| {
      if MatchAt(p, s, i).Some? { MatchAdvances(p, s, i); }
    } else if MatchAt(p, s, i).None? {
      ScanFindsAll(p, s, i + 1, n);
    } else {
      MatchAdvances(p, s, i);
      var e := MatchAt(p, s, i).value.1;
      ScanFindsAll(p, s, e, n);
      forall j | i < j < e ensures MatchAt(p, s, j).None? {
        MatchesAreApart(p, s, i, j);
      }
    }
  }

  /** `find_closing_declarations`, `find_nonclosing_declarations` and the canonical finders, on a reading of the text. */
  function Declared(p: Pattern, reading: string): (r: set<nat>)
    ensures forall n :: n in r <==> Names(p, reading, n)
  {
    assert forall n :: n in Scan(p, reading, 0) <==> Names(p, reading, n) by {
      forall n ensures n in Scan(p, reading, 0) <==> Names(p, reading, n) {
        ScanFindsAll(p, reading, 0, n);
      }
    }
    Scan(p, reading, 0)
  }

  // ---- the discussing marker ----

  function SkipSeparators(s: string, i: nat): (j: nat)
    requires i <= |s|
    ensures i <= j <= |s|
    decreases |s| - i
  {
    if i < |s| && (IsSpace(s[i]) || s[i] == ',') then SkipSeparators(s, i + 1) else i
  }

  /** `((?:#\d+[\s,]*)+?)\s*-->` at `i`: the numbers. */
  function NumbersToClose(s: string, i: nat): Option<set<nat>>
    requires i <= |s|
    decreases |s| - i
  {
    if i == |s| || s[i] != '#' then None
    else
      var e := DigitsEnd(s, i + 1);
      if e == i + 1 then None
      else
        var n := ParseNat(s[i + 1..e]);
        var next := SkipSeparators(s, e);
        if HasAt(s, next, "-->") then Some({n})
        else match NumbersToClose(s, next)
          case None => None
          case Some(more) => Some({n} + more)
  }

  /** `<!--\s*closing-check:\s*discussing\s+...-->` at `i`. A match holds one `<`, so matches cannot overlap. */
  function DiscussingAt(s: string, i: nat): Option<set<nat>>
    requires i <= |s|
  {
    if !HasAt(s, i, "<!--") then None
    else
      var a := SkipSpaces(s, i + 4);
      if !FoldHasAt(s, a, "closing-check:") then None
      else
        var b := SkipSpaces(s, a + 14);
        if !FoldHasAt(s, b, "discussing") then None
        else
          var c := SkipSpaces(s, b + 10);
          if c == b + 10 then None else NumbersToClose(s, c)
  }

  /** The numbers that some marker of the text names. */
  function Discussed(s: string): set<nat> {
    set i, n | 0 <= i <= |s| && DiscussingAt(s, i).Some? && n in DiscussingAt(s, i).value :: n
  }

  /** `find_discussing_declarations`. */
  method FindDiscussing(s: string) returns (out: set<nat>)
    ensures out == Discussed(s)
  {
    hide DiscussingAt;
    out := {};
    for i := 0 to |s| + 1
      invariant forall n :: n in out <==> exists j :: 0 <= j < i && DiscussingAt(s, j).Some? && n in DiscussingAt(s, j).value
    {
      var marker := DiscussingAt(s, i);
      if marker.Some? {
        out := out + marker.value;
      }
    }
  }

  // ---- the clause window ----

  /** `[,;)\.]$|^--$` found in a word. */
  predicate EndsClause(word: string) {
    word == "--" || (word != "" && word[|word| - 1] in ",;).")
  }

  /** Where the longest suffix of `words[..n]` without a clause end begins. */
  function CutAt(words: seq<string>, n: nat): (i: nat)
    requires n <= |words|
    ensures i <= n && forall k :: i <= k < n ==> !EndsClause(words[k])
    ensures i > 0 ==> EndsClause(words[i - 1])
  {
    if n == 0 || EndsClause(words[n - 1]) then n else CutAt(words, n - 1)
  }

  function Window(words: seq<string>): seq<string> {
    words[CutAt(words, |words|)..]
  }

  /** No longer suffix is free of clause ends. */
  lemma WindowIsLongest(words: seq<string>, k: nat)
    requires k <= |words|
    ensures (forall w :: w in words[k..] ==> !EndsClause(w)) <==> |words| - k <= |Window(words)|
  {
    hide EndsClause;
    var cut, suffix := CutAt(words, |words|), words[k..];
    if k < cut {
      assert suffix[cut - 1 - k] == words[cut - 1];
      assert words[cut - 1] in suffix;
    } else {
      forall w | w in suffix ensures !EndsClause(w) {
        var x :| 0 <= x < |suffix| && suffix[x] == w;
        assert words[k + x] == w;
      }
    }
  }

  /** `_clause_window`. */
  method ClauseWindow(words: seq<string>) returns (result: seq<string>)
    ensures result == Window(words)
  {
    hide EndsClause;
    var reversed: seq<string> := [];
    var i := |words|;
    while i > 0
      invariant 0 <= i <= |words| && |reversed| == |words| - i
      invariant forall k :: 0 <= k < |reversed| ==> reversed[k] == words[|words| - 1 - k]
      invariant CutAt(words, |words|) == CutAt(words, i)
    {
      if EndsClause(words[i - 1]) {
        break;
      }
      i := i - 1;
      reversed := reversed + [words[i]];
    }
    result := Reverse(reversed);
    assert result == words[i..];
  }

  function Reverse(s: seq<string>): (r: seq<string>)
    ensures |r| == |s| && forall k :: 0 <= k < |s| ==> r[k] == s[|s| - 1 - k]
  {
    if s == [] then [] else Reverse(s[1..]) + [s[0]]
  }

  // ---- negations ----

  const ENGLISH := ["not", "cannot", "never", "without", "no longer"]
  const JAPANESE := ["\U{306A}\U{3044}", "\U{307E}\U{305B}\U{3093}", "\U{305B}\U{305A}"]

  /** `str.lower`, as far as the terms can tell. */
  function LowerChar(c: char): string {
    if 'A' <= c <= 'Z' then [(c as int + 32) as char]
    else if c as int == 0x212A then "k"
    else if c as int == 0x130 then "i\U{0307}"
    else [c]
  }

  function Lower(s: string): string {
    if s == "" then "" else LowerChar(s[0]) + Lower(s[1..])
  }

  predicate FoldedWordAt(s: string, k: nat, term: string)
    requires k <= |s|
  {
    FoldHasAt(s, k, term) && IsBoundary(s, k) && IsBoundary(s, k + |term|)
  }

  /** `_window_has_negation`. */
  predicate HasNegation(window: string) {
    (exists t, k :: t in ENGLISH && 0 <= k <= |window| && FoldedWordAt(window, k, t))
    || exists t :: t in JAPANESE && Contains(window, t)
  }

  function LastWords(ws: seq<string>, n: nat): seq<string> {
    if |ws| <= n then ws else ws[|ws| - n..]
  }

  function WindowText(words: seq<string>): string {
    Lower(JoinWords(words))
  }

  /** A negation stands in the clause before offset `i`, within six words. */
  predicate NegatedBefore(s: string, i: nat)
    requires i <= |s|
  {
    HasNegation(WindowText(Window(LastWords(Words(s[..i]), 6))))
  }

  /** The closing references of a reading that a negation stands before. */
  function NegatedIn(s: string): set<nat> {
    set i | 0 <= i <= |s| && MatchAt(Closing, s, i).Some? && NegatedBefore(s, i) :: MatchAt(Closing, s, i).value.0
  }

  function Negated(body: string): set<nat> {
    NegatedIn(GithubReading(body))
  }

  /** `find_negated_closing_declarations`: the matches from left to right, each with its own window. */
  method FindNegated(body: string) returns (out: set<nat>)
    ensures out == Negated(body)
  {
    hide MatchAt, NegatedBefore, GithubReading;
    var s := GithubReading(body);
    out := {};
    var i := 0;
    while i <= |s|
      invariant 0 <= i <= |s| + 1
      invariant forall n :: n in out <==>
        exists j :: 0 <= j < i && MatchAt(Closing, s, j).Some? && NegatedBefore(s, j) && n == MatchAt(Closing, s, j).value.0
    {
      var m := MatchAt(Closing, s, i);
      if m.None? {
        i := i + 1;
      } else {
        MatchAdvances(Closing, s, i);
        if NegatedBefore(s, i) {
          out := out + {m.value.0};
        }
        forall j | i < j < m.value.1 ensures MatchAt(Closing, s, j).None? {
          MatchesAreApart(Closing, s, i, j);
        }
        i := m.value.1;
      }
    }
  }

  lemma {:induction false} LowerAppend(a: string, b: string)
    ensures Lower(a + b) == Lower(a) + Lower(b)
  {
    if a == "" {
      assert a + b == b;
    } else {
      assert (a + b)[0] == a[0] && (a + b)[1..] == a[1..] + b;
      LowerAppend(a[1..], b);
    }
  }

  /** The text of a suffix of the words ends the text of all of them, behind a space. */
  lemma SuffixText(words: seq<string>, k: nat) returns (front: string)
    requires k <= |words| && words[k..] != []
    ensures WindowText(words) == front + WindowText(words[k..]) && (front != "" ==> !IsWord(front[|front| - 1]))
  {
    assert words == words[..k] + words[k..];
    JoinWordsAppend(words[..k], words[k..]);
    if words[..k] == [] {
      front := "";
      assert front + WindowText(words[k..]) == WindowText(words[k..]);
    } else {
      var j := JoinWords(words[..k]);
      LowerAppend(j + " ", JoinWords(words[k..]));
      LowerAppend(j, " ");
      assert Lower(" ") == " " + Lower("") == " ";
      front := Lower(j) + " ";
    }
  }

  lemma FoldMoves(front: string, window: string, t: string, k: nat)
    requires FoldHasAt(window, k, t)
    ensures FoldHasAt(front + window, |front| + k, t)
  {
    var s := front + window;
    forall j | 0 <= j < |t| ensures Fold(s[|front| + k + j]) == t[j] {
      assert s[|front| + k + j] == window[k + j];
    }
  }

  lemma BoundaryMoves(front: string, window: string, k: nat)
    requires k <= |window| && IsBoundary(window, k)
    requires front != "" ==> !IsWord(front[|front| - 1])
    ensures IsBoundary(front + window, |front| + k)
  {
    hide IsWord;
    var s := front + window;
    assert k < |window| ==> s[|front| + k] == window[k];
    assert k > 0 ==> s[|front| + k - 1] == window[k - 1];
    assert k == 0 && front != "" ==> s[|front| - 1] == front[|front| - 1];
  }

  lemma EnglishMoves(front: string, window: string, t: string, k: nat)
    requires front != "" ==> !IsWord(front[|front| - 1])
    requires k <= |window| && FoldedWordAt(window, k, t)
    ensures FoldedWordAt(front + window, |front| + k, t)
  {
    hide FoldHasAt, IsBoundary;
    FoldMoves(front, window, t, k);
    BoundaryMoves(front, window, k);
    BoundaryMoves(front, window, k + |t|);
  }

  lemma NegationMoves(front: string, window: string)
    requires front != "" ==> !IsWord(front[|front| - 1])
    requires HasNegation(window)
    ensures HasNegation(front + window)
  {
    hide FoldedWordAt, IsWord, Contains;
    if exists t, k :: t in ENGLISH && 0 <= k <= |window| && FoldedWordAt(window, k, t) {
      var t, k :| t in ENGLISH && 0 <= k <= |window| && FoldedWordAt(window, k, t);
      EnglishMoves(front, window, t, k);
    } else {
      var t :| t in JAPANESE && Contains(window, t);
      ContainsInside(front, window, "", t);
      assert front + window + "" == front + window;
    }
  }

  /** Cutting the window at a clause end can only lose negations, never invent one. */
  lemma CutIsConservative(words: seq<string>)
    ensures HasNegation(WindowText(Window(words))) ==> HasNegation(WindowText(words))
  {
    hide HasNegation, WindowText, EndsClause;
    var r := Window(words);
    if r == [] {
      NoNegationInNothing();
    } else {
      var front := SuffixText(words, |words| - |r|);
      if HasNegation(WindowText(r)) {
        NegationMoves(front, WindowText(r));
      }
    }
  }

  lemma NoNegationInNothing()
    ensures !HasNegation(WindowText([]))
  {
    assert WindowText([]) == "";
  }
}
