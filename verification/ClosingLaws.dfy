/** The patterns of the closing-intent detector as shapes of text. */
module ClosingLaws {
  import opened Wrappers
  import opened Text
  import opened Whitespace
  import opened Markers
  import opened ClosingText

  // ---- the two readings ----

  lemma {:induction false} AuthorReadingAppend(a: string, b: string)
    ensures AuthorReading(a + b) == AuthorReading(a) + AuthorReading(b)
  {
    if a == "" {
      assert a + b == b;
    } else {
      assert (a + b)[0] == a[0] && (a + b)[1..] == a[1..] + b;
      AuthorReadingAppend(a[1..], b);
    }
  }

  /** The author's reading of a text is the text without its backticks. */
  lemma AuthorReadingIs(a: string, b: string)
    ensures '`' !in a ==> AuthorReading(a) == a
    ensures AuthorReading(a + "`" + b) == AuthorReading(a) + AuthorReading(b)
  {
    hide AuthorReading;
    AuthorReadingAppend(a + "`", b);
    AuthorReadingAppend(a, "`");
    OneBacktick();
    if '`' !in a {
      NoBacktick(a);
    }
  }

  lemma OneBacktick()
    ensures AuthorReading("`") == ""
  {}

  lemma {:induction false} NoBacktick(a: string)
    requires '`' !in a
    ensures AuthorReading(a) == a
  {
    if a == "" {
    } else {
      assert a[0] in a;
      NoBacktick(a[1..]);
    }
  }

  predicate IsFence(mark: string) {
    mark == "`" || mark == "```"
  }

  lemma FindIs(s: string, pat: string, from: nat, k: nat)
    requires from <= k && HasAt(s, k, pat) && forall x :: from <= x < k ==> !HasAt(s, x, pat)
    ensures from <= |s| && Find(s, pat, from) == Some(k)
  {
    hide HasAt;
    assert k <= |s| by { PieceFits(s, k, pat); }
  }

  lemma NoFence(s: string, mark: string, from: nat, to: nat)
    requires IsFence(mark) && to <= |s| && forall x :: from <= x < to ==> s[x] != '`'
    ensures forall x :: from <= x < to ==> !HasAt(s, x, mark)
  {
    forall x | from <= x < to ensures !HasAt(s, x, mark) {
      if HasAt(s, x, mark) {
        HasAtChar(s, x, mark, 0);
      }
    }
  }

  /** What stands between the first mark and the next goes, both marks included. */
  lemma FirstStretchGoes(pre: string, code: string, post: string, mark: string)
    requires var s := pre + mark + code + mark + post;
      mark != "" && (forall x :: 0 <= x < |pre| ==> !HasAt(s, x, mark)) &&
      forall x :: |pre| + |mark| <= x < |pre| + |mark| + |code| ==> !HasAt(s, x, mark)
    ensures DropFenced(pre + mark + code + mark + post, mark) == pre + " " + DropFenced(post, mark)
  {
    hide HasAt, Find;
    var s := pre + mark + code + mark + post;
    var i, j := |pre|, |pre| + |mark| + |code|;
    HasMiddle(pre, mark, code + mark + post);
    assert s == pre + mark + (code + mark + post);
    HasMiddle(pre + mark + code, mark, post);
    FindIs(s, mark, 0, i);
    FindIs(s, mark, i + |mark|, j);
    assert s[..i] == pre && s[j + |mark|..] == post;
  }

  /** Code between two fences is read as a space. */
  lemma FencedIsBlank(pre: string, code: string, post: string, mark: string)
    requires IsFence(mark) && '`' !in pre && '`' !in code
    ensures DropFenced(pre + mark + code + mark + post, mark) == pre + " " + DropFenced(post, mark)
  {
    hide HasAt, DropFenced;
    var s := pre + mark + code + mark + post;
    var i, j := |pre|, |pre| + |mark| + |code|;
    forall x | 0 <= x < i ensures s[x] != '`' {
      assert s[x] == pre[x] && pre[x] in pre;
    }
    NoFence(s, mark, 0, i);
    forall x | i + |mark| <= x < j ensures s[x] != '`' {
      assert s[x] == code[x - i - |mark|] && code[x - i - |mark|] in code;
    }
    NoFence(s, mark, i + |mark|, j);
    FirstStretchGoes(pre, code, post, mark);
  }

  /** Without a fence nothing is dropped. */
  lemma UnfencedStays(s: string, mark: string)
    requires mark != "" && forall x :: 0 <= x < |s| ==> !HasAt(s, x, mark)
    ensures DropFenced(s, mark) == s
  {}

  lemma NoBacktickStays(s: string, mark: string)
    requires IsFence(mark) && '`' !in s
    ensures DropFenced(s, mark) == s
  {
    forall x | 0 <= x < |s| ensures s[x] != '`' {
      assert s[x] in s;
    }
    NoFence(s, mark, 0, |s|);
    UnfencedStays(s, mark);
  }

  /** For GitHub, fenced code is a space, in blocks and in spans alike. */
  lemma GithubReadingIs(pre: string, code: string, post: string, mark: string)
    requires IsFence(mark) && '`' !in pre && '`' !in code && '`' !in post && code != ""
    ensures GithubReading(pre + mark + code + mark + post) == pre + " " + post
    ensures GithubReading(pre) == pre
  {
    hide DropFenced;
    var s, plain := pre + mark + code + mark + post, pre + " " + post;
    NoBacktickStays(pre, "```");
    NoBacktickStays(pre, "`");
    NoBacktickStays(post, mark);
    NoBacktickStays(plain, "`");
    FencedIsBlank(pre, code, post, mark);
    if mark == "`" {
      SpanIsNoBlock(pre, code, post);
    }
  }

  /** A block needs three backticks in a row. */
  lemma SpanIsNoBlock(pre: string, code: string, post: string)
    requires '`' !in pre && '`' !in code && '`' !in post && code != ""
    ensures var s := pre + "`" + code + "`" + post; DropFenced(s, "```") == s
  {
    var s := pre + "`" + code + "`" + post;
    var i, j := |pre|, |pre| + 1 + |code|;
    forall x | 0 <= x < |s| && x != i && x != j ensures s[x] != '`' {
      if x < i { assert s[x] == pre[x] && pre[x] in pre; }
      else if x < j { assert s[x] == code[x - i - 1] && code[x - i - 1] in code; }
      else { assert s[x] == post[x - j - 1] && post[x - j - 1] in post; }
    }
    forall x | 0 <= x < |s| ensures !HasAt(s, x, "```") {
      if HasAt(s, x, "```") {
        HasAtChar(s, x, "```", 0);
        HasAtChar(s, x, "```", 1);
        HasAtChar(s, x, "```", 2);
      }
    }
    UnfencedStays(s, "```");
  }

  /** Blocks go first: inside a block, a backtick opens no span. */
  lemma BlocksGoFirst()
    ensures GithubReading("```a`b```") == " "
  {
    hide DropFenced;
    var s := "" + "```" + "a`b" + "```" + "";
    assert s == "```a`b```" && s[4] == '`' && s[3] == 'a' && s[5] == 'b';
    forall x | 3 <= x < 6 ensures !HasAt(s, x, "```") {
      if HasAt(s, x, "```") {
        HasAtChar(s, x, "```", 0);
        HasAtChar(s, x, "```", 1);
      }
    }
    FirstStretchGoes("", "a`b", "", "```");
    assert "" + " " + "" == " ";
    NoBacktickStays("", "```");
    NoBacktickStays(" ", "`");
  }

  // ---- keyword references ----

  /** `close[sd]?|fix(?:e[sd])?|resolve[sd]?`, the canonical forms among them, and `part of|towards?`. */
  predicate IsKeyword(p: Pattern, w: string) {
    match p
    case Closing => w in {"close", "resolve", "fix"} || (EndsIn(w, "sd") && Stem(w) in {"close", "resolve", "fixe"})
    case Canonical => EndsIn(w, "s") && Stem(w) in {"close", "resolve", "fixe"}
    case NonClosing => w in {"part of", "toward"} || (EndsIn(w, "s") && Stem(w) == "toward")
  }

  predicate EndsIn(w: string, chars: string) {
    w != "" && w[|w| - 1] in chars
  }

  function Stem(w: string): string
    requires w != ""
  {
    w[..|w| - 1]
  }

  /** `\s*:?\s*`. */
  predicate IsGap(t: string) {
    Blank(t) || exists k :: 0 <= k < |t| && t[k] == ':' && Blank(t[..k]) && Blank(t[k + 1..])
  }

  /** Behind a gap, a `#` and the whole of a numeral. */
  predicate RefersAt(s: string, j: nat, b: nat, e: nat, n: nat) {
    j <= b && b + 1 < e <= |s| && IsGap(s[j..b]) && s[b] == '#' && IsNumeral(s[b + 1..e])
    && (e < |s| ==> !IsDigit(s[e])) && ParseNat(s[b + 1..e]) == n
  }

  lemma RefRefers(s: string, j: nat) returns (b: nat)
    requires j <= |s| && RefAt(s, j).Some?
    ensures RefersAt(s, j, b, RefAt(s, j).value.1, RefAt(s, j).value.0)
  {
    hide IsSpace, IsDigit, ParseNat, IsGap;
    var a := SkipSpaces(s, j);
    b := if a < |s| && s[a] == ':' then SkipSpaces(s, a + 1) else a;
    GapIs(s, j, a, b);
    var e := DigitsEnd(s, b + 1);
    var digits := s[b + 1..e];
    assert forall k :: 0 <= k < |digits| ==> digits[k] == s[b + 1 + k];
  }

  lemma GapIs(s: string, j: nat, a: nat, b: nat)
    requires j <= a <= b <= |s| && (forall k :: j <= k < a ==> IsSpace(s[k]))
    requires a == b || (a < b && s[a] == ':' && forall k :: a + 1 <= k < b ==> IsSpace(s[k]))
    ensures IsGap(s[j..b])
  {
    hide IsSpace;
    var gap := s[j..b];
    if b == a {
      assert Blank(gap);
    } else {
      assert gap[..a - j] == s[j..a] && gap[a - j] == ':' && gap[a - j + 1..] == s[a + 1..b];
      assert Blank(s[j..a]) && Blank(s[a + 1..b]);
    }
  }

  lemma BlankIs(s: string, i: nat, j: nat)
    requires i <= j <= |s| && Blank(s[i..j])
    ensures forall k :: i <= k < j ==> IsSpace(s[k])
  {
    forall k | i <= k < j ensures IsSpace(s[k]) {
      assert s[i..j][k - i] == s[k] && s[k] in s[i..j];
    }
  }

  lemma GapIsSkipped(s: string, j: nat, b: nat)
    requires j <= b < |s| && IsGap(s[j..b]) && s[b] == '#'
    ensures var a := SkipSpaces(s, j); b == if a < |s| && s[a] == ':' then SkipSpaces(s, a + 1) else a
  {
    hide IsSpace, Blank, SkipSpaces;
    var gap := s[j..b];
    MarksAreNoSpace();
    if Blank(gap) {
      BlankIs(s, j, b);
      SkipSpacesIs(s, j, b);
    } else {
      var k :| 0 <= k < |gap| && gap[k] == ':' && Blank(gap[..k]) && Blank(gap[k + 1..]);
      ColonGap(s, j, b, k);
    }
  }

  lemma MarksAreNoSpace()
    ensures !IsSpace('#') && !IsSpace(':')
  {}

  lemma ColonGap(s: string, j: nat, b: nat, k: nat)
    requires j <= j + k < b < |s| && s[j..b][k] == ':' && Blank(s[j..b][..k]) && Blank(s[j..b][k + 1..]) && s[b] == '#'
    ensures SkipSpaces(s, j) == j + k && s[j + k] == ':' && SkipSpaces(s, j + k + 1) == b
  {
    hide IsSpace, Blank, SkipSpaces;
    MarksAreNoSpace();
    assert s[j..b][..k] == s[j..j + k] && s[j..b][k + 1..] == s[j + k + 1..b];
    BlankIs(s, j, j + k);
    BlankIs(s, j + k + 1, b);
    SkipSpacesIs(s, j, j + k);
    SkipSpacesIs(s, j + k + 1, b);
  }

  /** A reference is read exactly where one stands. */
  lemma RefIff(s: string, j: nat, n: nat)
    requires j <= |s|
    ensures RefAt(s, j).Some? && RefAt(s, j).value.0 == n <==> exists b, e :: RefersAt(s, j, b, e, n)
  {
    hide RefAt, RefersAt;
    if RefAt(s, j).Some? {
      var b := RefRefers(s, j);
    }
    forall b, e | RefersAt(s, j, b, e, n) ensures RefAt(s, j).Some? && RefAt(s, j).value.0 == n {
      RefIsRead(s, j, b, e, n);
    }
  }

  lemma RefIsRead(s: string, j: nat, b: nat, e: nat, n: nat)
    requires RefersAt(s, j, b, e, n)
    ensures RefAt(s, j) == Some((n, e))
  {
    hide IsSpace, IsGap, ParseNat;
    GapIsSkipped(s, j, b);
    var ds := s[b + 1..e];
    assert forall k :: b + 1 <= k < e ==> s[k] == ds[k - b - 1];
    DigitsEndIs(s, b + 1, e);
  }

  /** The keyword stands at `i` in any case, a reference behind it. */
  predicate KeywordRefers(p: Pattern, s: string, i: nat, w: string, b: nat, e: nat, n: nat) {
    IsKeyword(p, w) && FoldHasAt(s, i, w) && RefersAt(s, i + |w|, b, e, n)
  }

  /** Nothing of a word stands before the keyword; before a canonical one, no hyphen either. */
  predicate StandsFree(p: Pattern, s: string, i: nat)
    requires i <= |s|
  {
    i > 0 ==> !IsWord(s[i - 1]) && (p.Canonical? ==> s[i - 1] != '-')
  }

  lemma Ending(w: string, stem: string, c: char)
    ensures w == stem + [c] <==> w != "" && Stem(w) == stem && w[|w| - 1] == c
  {}

  /** The lists of words are what the patterns spell. */
  lemma KeywordsAre(p: Pattern, w: string)
    ensures w in KeywordsOf(p) <==> IsKeyword(p, w)
  {
    hide Stem;
    Ending(w, "close", 's');
    Ending(w, "close", 'd');
    Ending(w, "resolve", 's');
    Ending(w, "resolve", 'd');
    Ending(w, "fixe", 's');
    Ending(w, "fixe", 'd');
    Ending(w, "toward", 's');
    assert "close" + ['s'] == "closes" && "close" + ['d'] == "closed" && "resolve" + ['s'] == "resolves";
    assert "resolve" + ['d'] == "resolved" && "fixe" + ['s'] == "fixes" && "fixe" + ['d'] == "fixed";
    assert "toward" + ['s'] == "towards";
  }

  lemma StartIs(p: Pattern, s: string, i: nat)
    requires i < |s| && IsWord(s[i])
    ensures StartOk(p, s, i) <==> StandsFree(p, s, i)
  {
    hide IsWord;
  }

  /** A reference begins with white space, a colon or `#`, so not inside a longer keyword. */
  lemma RefStart(s: string, j: nat)
    requires j <= |s| && RefAt(s, j).Some?
    ensures j < |s| && !('a' <= Fold(s[j]) <= 'z')
  {
    assert IsSpace(s[j]) || s[j] == ':' || s[j] == '#';
  }

  lemma SpacesInKeywords(p: Pattern, w: string)
    requires w in KeywordsOf(p)
    ensures p.NonClosing? ==> |w| >= 6 && forall k :: 0 <= k < |w| && w[k] == ' ' ==> k == 4
    ensures !p.NonClosing? ==> ' ' !in w
  {}

  /** No keyword of a pattern is a longer one cut before a space. */
  lemma LongerKeyword(p: Pattern, v: string, w: string)
    requires v in KeywordsOf(p) && w in KeywordsOf(p) && |v| < |w|
    ensures 'a' <= w[|v|] <= 'z'
  {
    hide KeywordsOf;
    KeywordStarts(p, w);
    SpacesInKeywords(p, v);
    SpacesInKeywords(p, w);
    assert w[|v|] in w;
  }

  /** At most one keyword is followed by a reference. */
  lemma OneKeyword(p: Pattern, s: string, i: nat, v: string, w: string)
    requires i <= |s| && v in KeywordsOf(p) && w in KeywordsOf(p)
    requires RefAfter(s, i, v).Some? && RefAfter(s, i, w).Some?
    ensures v == w
  {
    hide RefAt, KeywordsOf, Fold;
    if |v| < |w| {
      LongerKeyword(p, v, w);
      RefStart(s, i + |v|);
    } else if |w| < |v| {
      LongerKeyword(p, w, v);
      RefStart(s, i + |w|);
    } else {
      assert forall k :: 0 <= k < |v| ==> v[k] == Fold(s[i + k]) && w[k] == Fold(s[i + k]);
    }
  }

  lemma AfterIsRef(s: string, i: nat, w: string)
    requires i <= |s| && FoldHasAt(s, i, w)
    ensures i + |w| <= |s| && RefAfter(s, i, w) == RefAt(s, i + |w|)
  {}

  lemma FirstIsIt(s: string, i: nat, words: seq<string>, w: string)
    requires i <= |s| && w in words && RefAfter(s, i, w).Some?
    ensures FirstKeyword(s, i, words).Some?
  {}

  /** A pattern matches at `i` exactly where one of its keywords stands free with a reference behind it. */
  lemma MatchIff(p: Pattern, s: string, i: nat, n: nat)
    requires i <= |s|
    ensures MatchAt(p, s, i).Some? && MatchAt(p, s, i).value.0 == n <==>
      StandsFree(p, s, i) && exists w, b, e :: KeywordRefers(p, s, i, w, b, e, n)
  {
    hide RefAt, RefersAt, KeywordsOf, IsKeyword, IsWord, StandsFree, FoldHasAt;
    if MatchAt(p, s, i).Some? {
      var w :| w in KeywordsOf(p) && RefAfter(s, i, w) == MatchAt(p, s, i);
      KeywordIsWord(p, s, i, w);
      StartIs(p, s, i);
      KeywordsAre(p, w);
      RefIff(s, i + |w|, MatchAt(p, s, i).value.0);
      var b, e :| RefersAt(s, i + |w|, b, e, MatchAt(p, s, i).value.0);
      assert KeywordRefers(p, s, i, w, b, e, MatchAt(p, s, i).value.0);
    }
    forall w, b, e | StandsFree(p, s, i) && KeywordRefers(p, s, i, w, b, e, n)
      ensures MatchAt(p, s, i).Some? && MatchAt(p, s, i).value.0 == n
    {
      ReferredIsMatched(p, s, i, w, b, e, n);
    }
  }

  lemma KeywordIsWord(p: Pattern, s: string, i: nat, w: string)
    requires w in KeywordsOf(p) && FoldHasAt(s, i, w)
    ensures i < |s| && i + |w| <= |s| && IsWord(s[i])
  {
    KeywordStarts(p, w);
    assert Fold(s[i + 0]) == w[0];
    FoldedIsWord(s[i]);
  }

  lemma ReferredIsMatched(p: Pattern, s: string, i: nat, w: string, b: nat, e: nat, n: nat)
    requires i <= |s| && StandsFree(p, s, i) && KeywordRefers(p, s, i, w, b, e, n)
    ensures MatchAt(p, s, i) == Some((n, e))
  {
    hide RefAt, RefersAt, KeywordsOf, IsKeyword, IsWord, StandsFree, FoldHasAt;
    KeywordsAre(p, w);
    KeywordIsWord(p, s, i, w);
    StartIs(p, s, i);
    RefIsRead(s, i + |w|, b, e, n);
    FirstIsIt(s, i, KeywordsOf(p), w);
    var v :| v in KeywordsOf(p) && RefAfter(s, i, v) == MatchAt(p, s, i);
    AfterIsRef(s, i, w);
    assert RefAfter(s, i, w).Some?;
    assert MatchAt(p, s, i) == FirstKeyword(s, i, KeywordsOf(p));
    assert RefAfter(s, i, v).Some?;
    OneKeyword(p, s, i, v, w);
  }

  // ---- the discussing marker ----

  datatype Item = Item(digits: string, gap: string)

  predicate IsItem(item: Item) {
    IsNumeral(item.digits) && forall k :: 0 <= k < |item.gap| ==> IsSpace(item.gap[k]) || item.gap[k] == ','
  }

  predicate AreItems(items: seq<Item>) {
    items != [] && forall item :: item in items ==> IsItem(item)
  }

  function SpellItems(items: seq<Item>): string {
    if items == [] then "" else "#" + items[0].digits + items[0].gap + SpellItems(items[1..])
  }

  function Numbers(items: seq<Item>): set<nat>
    requires forall item :: item in items ==> IsItem(item)
  {
    if items == [] then {}
    else
      assert IsItem(items[0]);
      {ParseNat(items[0].digits)} + Numbers(items[1..])
  }

  predicate SpelledAt(s: string, c: nat, items: seq<Item>, ns: set<nat>) {
    AreItems(items) && HasAt(s, c, SpellItems(items) + "-->") && ns == Numbers(items)
  }

  /** The numbers are read exactly where a list of them, with white space and commas behind each, runs up to `-->`. */
  lemma NumbersIff(s: string, c: nat, ns: set<nat>)
    requires c <= |s|
    ensures NumbersToClose(s, c) == Some(ns) <==> exists items :: SpelledAt(s, c, items, ns)
  {
    hide NumbersToClose, SpelledAt;
    if NumbersToClose(s, c).Some? {
      var items := NumbersAreSpelled(s, c);
    }
    forall items | SpelledAt(s, c, items, ns) ensures NumbersToClose(s, c) == Some(ns) {
      SpelledIsRead(s, c, items, ns);
    }
  }

  predicate IsSeparator(c: char) {
    IsSpace(c) || c == ','
  }

  lemma SeparatorsEnd(s: string, i: nat, j: nat)
    requires i <= j <= |s| && (forall k :: i <= k < j ==> IsSeparator(s[k])) && (j < |s| ==> !IsSeparator(s[j]))
    ensures SkipSeparators(s, i) == j
    decreases j - i
  {
    hide IsSpace;
    if i < j {
      assert IsSeparator(s[i]);
      SeparatorsEnd(s, i + 1, j);
    }
  }

  lemma SeparatorsAre(s: string, i: nat)
    requires i <= |s|
    ensures forall k :: i <= k < SkipSeparators(s, i) ==> IsSeparator(s[k])
    decreases |s| - i
  {
    hide IsSpace;
    if i < |s| && IsSeparator(s[i]) {
      SeparatorsAre(s, i + 1);
    }
  }

  lemma SpellCons(item: Item, rest: seq<Item>)
    ensures SpellItems([item] + rest) == "#" + item.digits + item.gap + SpellItems(rest)
  {
    assert ([item] + rest)[1..] == rest;
  }

  lemma NumbersCons(item: Item, rest: seq<Item>)
    requires IsItem(item) && forall other :: other in rest ==> IsItem(other)
    ensures (forall other :: other in [item] + rest ==> IsItem(other)) && AreItems([item] + rest)
    ensures Numbers([item] + rest) == {ParseNat(item.digits)} + Numbers(rest)
  {
    assert ([item] + rest)[1..] == rest;
  }

  lemma {:induction false} NumbersAreSpelled(s: string, c: nat) returns (items: seq<Item>)
    requires c <= |s| && NumbersToClose(s, c).Some?
    ensures SpelledAt(s, c, items, NumbersToClose(s, c).value)
    decreases |s| - c
  {
    hide IsSpace, IsDigit, ParseNat, HasAt, Numbers, SpellItems;
    var e := DigitsEnd(s, c + 1);
    var next := SkipSeparators(s, e);
    var item := Item(s[c + 1..e], s[e..next]);
    assert forall k :: 0 <= k < |item.digits| ==> item.digits[k] == s[c + 1 + k];
    SeparatorsAre(s, e);
    assert IsItem(item);
    if HasAt(s, next, "-->") {
      items := [item];
      NumbersCons(item, []);
      SpellCons(item, []);
      EmptySpelling();
      assert [item] + [] == [item];
      FrontAt(s, c, e, next, item, "-->");
    } else {
      var rest := NumbersAreSpelled(s, next);
      items := [item] + rest;
      NumbersCons(item, rest);
      SpellCons(item, rest);
      FrontAt(s, c, e, next, item, SpellItems(rest) + "-->");
    }
  }

  lemma EmptySpelling()
    ensures SpellItems([]) == "" && Numbers([]) == {}
  {}

  lemma FrontAt(s: string, c: nat, e: nat, next: nat, item: Item, rest: string)
    requires c + 1 <= e <= next <= |s| && s[c] == '#' && item == Item(s[c + 1..e], s[e..next]) && HasAt(s, next, rest)
    ensures HasAt(s, c, "#" + item.digits + item.gap + rest)
    ensures forall tail: string :: rest == tail + "-->" ==> HasAt(s, c, "#" + item.digits + item.gap + tail + "-->")
  {
    var front := "#" + item.digits + item.gap;
    assert s[c..next] == front;
    HasAtSplit(s, c, front, rest);
    forall tail: string | rest == tail + "-->" ensures HasAt(s, c, "#" + item.digits + item.gap + tail + "-->") {
      assert front + tail + "-->" == front + rest;
    }
  }

  lemma {:induction false} SpelledIsRead(s: string, c: nat, items: seq<Item>, ns: set<nat>)
    requires c <= |s| && SpelledAt(s, c, items, ns)
    ensures NumbersToClose(s, c) == Some(ns)
    decreases |items|
  {
    hide IsSpace, IsDigit, ParseNat, HasAt, Numbers, SpellItems;
    var item, rest := items[0], items[1..];
    assert items == [item] + rest && item in items && forall other :: other in rest ==> other in items;
    var tail := SpellItems(rest) + "-->";
    SpellCons(item, rest);
    NumbersCons(item, rest);
    assert SpellItems(items) + "-->" == "#" + item.digits + item.gap + tail;
    var e, next := c + 1 + |item.digits|, c + 1 + |item.digits| + |item.gap|;
    ItemAt(s, c, item, tail);
    TailStarts(rest);
    HasAtChar(s, next, tail, 0);
    PieceFits(s, next, tail);
    ItemIsRead(s, c, e, next, item);
    if rest == [] {
      EmptySpelling();
      assert tail == "-->" && HasAt(s, next, "-->") && {ParseNat(item.digits)} + {} == {ParseNat(item.digits)};
    } else {
      assert AreItems(rest);
      NotTheEnd(s, next);
      SpelledIsRead(s, next, rest, Numbers(rest));
    }
  }

  lemma NotTheEnd(s: string, next: nat)
    requires next < |s| && s[next] == '#'
    ensures !HasAt(s, next, "-->")
  {
    if HasAt(s, next, "-->") {
      HasAtChar(s, next, "-->", 0);
    }
  }

  lemma ItemAt(s: string, c: nat, item: Item, tail: string)
    requires HasAt(s, c, "#" + item.digits + item.gap + tail)
    ensures var e, next := c + 1 + |item.digits|, c + 1 + |item.digits| + |item.gap|;
            next <= |s| && s[c] == '#' && s[c + 1..e] == item.digits && s[e..next] == item.gap && HasAt(s, next, tail)
  {
    HasAtSplit(s, c, "#" + item.digits + item.gap, tail);
    HasAtSplit(s, c, "#" + item.digits, item.gap);
    HasAtSplit(s, c, "#", item.digits);
  }

  lemma TailStarts(rest: seq<Item>)
    ensures var tail := SpellItems(rest) + "-->"; tail[0] == if rest == [] then '-' else '#'
  {}

  lemma ItemIsRead(s: string, c: nat, e: nat, next: nat, item: Item)
    requires c + 1 <= e <= next < |s| && s[c] == '#' && item == Item(s[c + 1..e], s[e..next]) && IsItem(item)
    requires s[next] == '#' || s[next] == '-'
    ensures DigitsEnd(s, c + 1) == e && SkipSeparators(s, e) == next && c + 1 < e
  {
    assert forall k :: c + 1 <= k < e ==> s[k] == item.digits[k - c - 1];
    assert forall k :: e <= k < next ==> s[k] == item.gap[k - e];
    assert e < next ==> IsSpace(s[e]) || s[e] == ',';
    DigitsEndIs(s, c + 1, e);
    SeparatorsEnd(s, e, next);
  }

  /** The words of a marker with white space between them, in front of the numbers. */
  predicate MarkerOpens(s: string, i: nat, a: nat, b: nat, c: nat) {
    i + 4 <= a && a + 14 <= b && b + 10 < c <= |s| &&
    HasAt(s, i, "<!--") && Blank(s[i + 4..a]) && FoldHasAt(s, a, "closing-check:") && Blank(s[a + 14..b]) &&
    FoldHasAt(s, b, "discussing") && Blank(s[b + 10..c])
  }

  /** A discussing marker is read exactly where one is spelled. */
  lemma DiscussingIff(s: string, i: nat, ns: set<nat>)
    requires i <= |s|
    ensures DiscussingAt(s, i) == Some(ns) <==>
      exists a, b, c, items :: MarkerOpens(s, i, a, b, c) && SpelledAt(s, c, items, ns)
  {
    hide NumbersToClose, SpelledAt, FoldHasAt, HasAt, IsSpace;
    if DiscussingAt(s, i) == Some(ns) {
      var a := SkipSpaces(s, i + 4);
      var b := SkipSpaces(s, a + 14);
      var c := SkipSpaces(s, b + 10);
      NumbersIff(s, c, ns);
      var items :| SpelledAt(s, c, items, ns);
      assert MarkerOpens(s, i, a, b, c);
    }
    forall a, b, c, items | MarkerOpens(s, i, a, b, c) && SpelledAt(s, c, items, ns)
      ensures DiscussingAt(s, i) == Some(ns)
    {
      MarkerIsRead(s, i, a, b, c, items, ns);
    }
  }

  lemma FoldStart(s: string, i: nat, word: string)
    requires FoldHasAt(s, i, word) && word != "" && 'a' <= word[0] <= 'z'
    ensures i + |word| <= |s| && !IsSpace(s[i])
  {
    assert Fold(s[i + 0]) == word[0];
  }

  lemma MarkerIsRead(s: string, i: nat, a: nat, b: nat, c: nat, items: seq<Item>, ns: set<nat>)
    requires MarkerOpens(s, i, a, b, c) && SpelledAt(s, c, items, ns)
    ensures i <= |s| && DiscussingAt(s, i) == Some(ns)
  {
    hide NumbersToClose, SpelledAt, FoldHasAt, HasAt, IsSpace;
    FoldStart(s, a, "closing-check:");
    FoldStart(s, b, "discussing");
    ListStart(s, c, items, ns);
    BlankIs(s, i + 4, a);
    BlankIs(s, a + 14, b);
    BlankIs(s, b + 10, c);
    SkipSpacesIs(s, i + 4, a);
    SkipSpacesIs(s, a + 14, b);
    SkipSpacesIs(s, b + 10, c);
    NumbersIff(s, c, ns);
  }

  lemma ListStart(s: string, c: nat, items: seq<Item>, ns: set<nat>)
    requires c <= |s| && SpelledAt(s, c, items, ns)
    ensures c < |s| && !IsSpace(s[c])
  {
    hide HasAt;
    TailStarts(items);
    PieceFits(s, c, SpellItems(items) + "-->");
    HasAtChar(s, c, SpellItems(items) + "-->", 0);
  }

  // ---- negations ----

  /** Some of the last six words before the keyword, none of which ends a clause, hold a negation. */
  lemma NegatedIff(s: string, i: nat)
    requires i <= |s|
    ensures var words := Words(s[..i]);
      NegatedBefore(s, i) <==>
      exists k :: 0 <= k <= |words| && |words| - k <= 6 && FreeFrom(words, k) && HasNegation(WindowText(words[k..]))
  {
    hide HasNegation, WindowText, Words, FreeFrom, Window, LastWords;
    var words := Words(s[..i]);
    var cut := WindowOfLast(words, 6);
    assert NegatedBefore(s, i) == HasNegation(WindowText(words[cut..]));
    if NegatedBefore(s, i) {
      assert FreeFrom(words, cut) && |words| - cut <= 6 && HasNegation(WindowText(words[cut..]));
    }
    if k: nat :| k <= |words| && |words| - k <= 6 && FreeFrom(words, k) && HasNegation(WindowText(words[k..])) {
      LongerNegates(words[cut..], k - cut);
      assert words[cut..][k - cut..] == words[k..];
    }
  }

  /** The window of the last `n` words begins at `cut`, the first place from which no word ends a clause. */
  lemma WindowOfLast(words: seq<string>, n: nat) returns (cut: nat)
    ensures cut <= |words| && |words| - cut <= n && Window(LastWords(words, n)) == words[cut..]
    ensures FreeFrom(words, cut)
    ensures forall k: nat :: k <= |words| && |words| - k <= n && FreeFrom(words, k) ==> cut <= k
  {
    hide EndsClause, FreeFrom, CutAt;
    var last := LastWords(words, n);
    var d := |words| - |last|;
    var at := CutAt(last, |last|);
    cut := d + at;
    assert last == words[d..];
    assert last[at..] == words[cut..];
    CutIsFirst(words, d, at);
  }

  lemma CutIsFirst(words: seq<string>, d: nat, at: nat)
    requires d <= |words| && at == CutAt(words[d..], |words| - d)
    ensures d + at <= |words| && FreeFrom(words, d + at)
    ensures forall k: nat :: d <= k <= |words| && FreeFrom(words, k) ==> d + at <= k
  {
    hide EndsClause;
    var last := words[d..];
    forall x | d + at <= x < |words| ensures !EndsClause(words[x]) {
      assert words[x] == last[x - d];
    }
    if at > 0 {
      assert words[d + at - 1] == last[at - 1];
    }
  }

  predicate FreeFrom(words: seq<string>, k: nat) {
    forall x :: k <= x < |words| ==> !EndsClause(words[x])
  }

  lemma LongerNegates(words: seq<string>, k: nat)
    requires k <= |words| && HasNegation(WindowText(words[k..]))
    ensures HasNegation(WindowText(words))
  {
    hide HasNegation, WindowText;
    if words[k..] == [] {
      NoNegationInNothing();
    } else {
      var front := SuffixText(words, k);
      NegationMoves(front, WindowText(words[k..]));
    }
  }

  /** A word ends a clause when it ends in a comma, semicolon, bracket or full stop, or is a double dash. */
  lemma ClauseEnds(word: string, c: char)
    ensures !EndsClause("") && (EndsClause(word + [c]) <==> c in {',', ';', ')', '.'} || (word == "-" && c == '-'))
  {
    assert word + [c] == "--" <==> word == "-" && c == '-' by {
      assert (word + [c])[..|word|] == word;
    }
  }

  lemma WordNegates(t: string)
    requires t in {"not", "cannot", "never", "without", "no longer"}
    ensures HasNegation(t)
  {
    assert forall j :: 0 <= j < |t| ==> Fold(t[0 + j]) == t[j];
    assert FoldedWordAt(t, 0, t);
  }

  lemma EndingNegates(a: string, t: string, b: string)
    requires t in {"\U{306A}\U{3044}", "\U{307E}\U{305B}\U{3093}", "\U{305B}\U{305A}"}
    ensures HasNegation(a + t + b)
  {
    HasMiddle(a, t, b);
    assert t in JAPANESE && Contains(a + t + b, t);
  }

  /** `not` is a whole word: `notable` negates nothing. */
  lemma NotableIsNoNegation()
    ensures !HasNegation("notable")
  {
    var s := "notable";
    forall t, k | t in ENGLISH && 0 <= k <= |s| ensures !FoldedWordAt(s, k, t) {
      if FoldHasAt(s, k, t) {
        assert Fold(s[k + 0]) == t[0] && Fold(s[k + 1]) == t[1];
        assert k == 0 && t == "not" && !IsBoundary(s, 3);
      }
    }
    forall t | t in JAPANESE ensures !Contains(s, t) {
      if Contains(s, t) {
        var k :| 0 <= k <= |s| && HasAt(s, k, t);
        HasAtChar(s, k, t, 0);
      }
    }
  }
}
