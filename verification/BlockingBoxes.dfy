/** The checkbox lines of a pull request body as spelled, and what makes the blocking gate green in these terms. */
module BlockingBoxes {
  import opened Wrappers
  import opened Text
  import opened Whitespace
  import opened Markers
  import opened BlockingGate

  // ---- a red checkbox line, spelled ----

  /** `groups` is the white space behind each `**` in front of the red circle. */
  datatype Box = Box(
    indent: string, bullet: char, gap: string, mark: string, space: string, groups: seq<string>, rest: string)

  predicate AreTabs(t: string) {
    forall k :: 0 <= k < |t| ==> t[k] == ' ' || t[k] == '\t'
  }

  function SpellStars(groups: seq<string>): string {
    if groups == [] then "" else "**" + groups[0] + SpellStars(groups[1..])
  }

  function SpellBox(b: Box): string {
    b.indent + [b.bullet] + b.gap + "[" + b.mark + "]" + b.space + SpellStars(b.groups) + ['\U{1F534}'] + b.rest
  }

  /** A bullet, brackets and a red circle, with tabs and spaces between them. */
  predicate IsFrame(b: Box) {
    AreTabs(b.indent) && b.bullet in {'-', '*', '+'} && AreTabs(b.gap) && AreTabs(b.space) &&
    forall g :: g in b.groups ==> AreTabs(g)
  }

  predicate IsOpenBox(b: Box) {
    IsFrame(b) && AreTabs(b.mark)
  }

  predicate IsTickedBox(b: Box) {
    IsFrame(b) && (b.mark == "x" || b.mark == "X")
  }

  // ---- reading what is spelled ----

  lemma TabsEnd(s: string, i: nat, j: nat)
    requires i <= j <= |s| && (forall k :: i <= k < j ==> IsTabOrSpace(s[k])) && (j < |s| ==> !IsTabOrSpace(s[j]))
    ensures SkipTabs(s, i) == j
    decreases j - i
  {
    if i < j {
      assert IsTabOrSpace(s[i]);
      TabsEnd(s, i + 1, j);
    }
  }

  lemma TabsAt(line: string, i: nat, t: string)
    requires HasAt(line, i, t) && AreTabs(t) && (i + |t| < |line| ==> !IsTabOrSpace(line[i + |t|]))
    ensures i <= |line| && SkipTabs(line, i) == i + |t|
  {
    forall k | i <= k < i + |t| ensures IsTabOrSpace(line[k]) {
      HasAtChar(line, i, t, k - i);
    }
    TabsEnd(line, i, i + |t|);
  }

  lemma {:induction false} StarsAt(line: string, i: nat, groups: seq<string>)
    requires (forall g :: g in groups ==> AreTabs(g)) && HasAt(line, i, SpellStars(groups))
    requires i + |SpellStars(groups)| < |line| && line[i + |SpellStars(groups)|] == RED_CIRCLE
    ensures i <= |line| && SkipStars(line, i) == i + |SpellStars(groups)|
    decreases |groups|
  {
    hide HasAt, AreTabs;
    if groups == [] {
      NoStars(line, i);
    } else {
      var g, rest := groups[0], groups[1..];
      assert g in groups;
      StarsCons(groups);
      HasAtSplit(line, i, "**" + g, SpellStars(rest));
      HasAtSplit(line, i, "**", g);
      var j := i + 2 + |g|;
      PieceFits(line, j, SpellStars(rest));
      StarsStart(rest);
      StarsAt(line, j, rest);
      TabsAt(line, i + 2, g);
    }
  }

  lemma StarsCons(groups: seq<string>)
    requires groups != []
    ensures SpellStars(groups) == "**" + groups[0] + SpellStars(groups[1..])
  {}

  lemma NoStars(s: string, i: nat)
    requires i < |s| && s[i] == RED_CIRCLE
    ensures SkipStars(s, i) == i
  {
    if HasAt(s, i, "**") {
      HasAtChar(s, i, "**", 0);
    }
  }

  lemma StarsStart(groups: seq<string>)
    ensures SpellStars(groups) != "" ==> SpellStars(groups)[0] == '*'
  {}

  /** The pieces of a spelled box stand one behind the other. */
  lemma PiecesStand(line: string, b: Box)
    requires line == SpellBox(b)
    ensures var i := |b.indent|;
      var j := i + 1 + |b.gap|;
      var c := j + 1 + |b.mark|;
      var d := c + 1 + |b.space|;
      var r := d + |SpellStars(b.groups)|;
      HasAt(line, 0, b.indent) && HasAt(line, i, [b.bullet]) && HasAt(line, i + 1, b.gap) && HasAt(line, j, "[") &&
      HasAt(line, j + 1, b.mark) && HasAt(line, c, "]") && HasAt(line, c + 1, b.space) &&
      HasAt(line, d, SpellStars(b.groups)) && HasAt(line, r, [RED_CIRCLE]) && |line| == r + 1 + |b.rest| && line[r + 1..] == b.rest
  {
    hide HasAt, SpellStars;
    var stars := SpellStars(b.groups);
    WholeStands(line);
    HasAtSplit(line, 0, b.indent + [b.bullet] + b.gap + "[" + b.mark + "]" + b.space + stars + [RED_CIRCLE], b.rest);
    HasAtSplit(line, 0, b.indent + [b.bullet] + b.gap + "[" + b.mark + "]" + b.space + stars, [RED_CIRCLE]);
    HasAtSplit(line, 0, b.indent + [b.bullet] + b.gap + "[" + b.mark + "]" + b.space, stars);
    HasAtSplit(line, 0, b.indent + [b.bullet] + b.gap + "[" + b.mark + "]", b.space);
    HasAtSplit(line, 0, b.indent + [b.bullet] + b.gap + "[" + b.mark, "]");
    HasAtSplit(line, 0, b.indent + [b.bullet] + b.gap + "[", b.mark);
    HasAtSplit(line, 0, b.indent + [b.bullet] + b.gap, "[");
    HasAtSplit(line, 0, b.indent + [b.bullet], b.gap);
    HasAtSplit(line, 0, b.indent, [b.bullet]);
  }

  lemma WholeStands(line: string)
    ensures HasAt(line, 0, line)
  {}

  lemma FrontIsRead(line: string, indent: string, bullet: char, gap: string)
    requires AreTabs(indent) && AreTabs(gap) && bullet in {'-', '*', '+'}
    requires var i := |indent|;
      HasAt(line, 0, indent) && HasAt(line, i, [bullet]) && HasAt(line, i + 1, gap) && HasAt(line, i + 1 + |gap|, "[")
    ensures var i := |indent|;
      var j := i + 1 + |gap|;
      j < |line| && SkipTabs(line, 0) == i && line[i] in "-*+" && SkipTabs(line, i + 1) == j && line[j] == '['
  {
    hide HasAt, SkipTabs, AreTabs;
    var i := |indent|;
    var j := i + 1 + |gap|;
    PieceFits(line, i, [bullet]);
    PieceFits(line, j, "[");
    TabsAt(line, 0, indent);
    TabsAt(line, i + 1, gap);
  }

  lemma BackIsRead(line: string, c: nat, space: string, groups: seq<string>)
    requires AreTabs(space) && forall g :: g in groups ==> AreTabs(g)
    requires var d := c + 1 + |space|;
      HasAt(line, c, "]") && HasAt(line, c + 1, space) && HasAt(line, d, SpellStars(groups)) &&
      HasAt(line, d + |SpellStars(groups)|, [RED_CIRCLE])
    ensures var r := c + 1 + |space| + |SpellStars(groups)|;
      c < |line| && line[c] == ']' && r < |line| && line[r] == RED_CIRCLE && SkipStars(line, SkipTabs(line, c + 1)) == r
  {
    hide HasAt, SpellStars, SkipTabs, SkipStars, AreTabs;
    var d := c + 1 + |space|;
    var r := d + |SpellStars(groups)|;
    PieceFits(line, c, "]");
    PieceFits(line, d, SpellStars(groups));
    PieceFits(line, r, [RED_CIRCLE]);
    StarsStart(groups);
    StarsAt(line, d, groups);
    TabsAt(line, c + 1, space);
  }

  /** Up to the bracket that opens, and from the one that closes, every box is read alike. */
  lemma FrameIsRead(line: string, b: Box)
    requires line == SpellBox(b) && IsFrame(b)
    ensures var i := |b.indent|;
      var j := i + 1 + |b.gap|;
      j < |line| && SkipTabs(line, 0) == i && line[i] in "-*+" && SkipTabs(line, i + 1) == j && line[j] == '['
    ensures var c := |b.indent| + |b.gap| + 2 + |b.mark|;
      c < |line| && line[c] == ']' &&
      var r := SkipStars(line, SkipTabs(line, c + 1));
      r < |line| && line[r] == RED_CIRCLE && line[r + 1..] == b.rest
  {
    hide HasAt, SpellStars, SpellBox, SkipTabs, SkipStars, AreTabs;
    PiecesStand(line, b);
    FrontIsRead(line, b.indent, b.bullet, b.gap);
    BackIsRead(line, |b.indent| + |b.gap| + 2 + |b.mark|, b.space, b.groups);
  }

  lemma OpenIsRead(b: Box)
    requires IsOpenBox(b)
    ensures BoxText(SpellBox(b), true) == Some(b.rest)
  {
    hide SpellBox, IsFrame, SkipTabs, SkipStars, HasAt;
    var line := SpellBox(b);
    FrameIsRead(line, b);
    PiecesStand(line, b);
    TabsAt(line, |b.indent| + 2 + |b.gap|, b.mark);
  }

  lemma TickedIsRead(b: Box)
    requires IsTickedBox(b)
    ensures BoxText(SpellBox(b), false) == Some(b.rest)
  {
    hide SpellBox, IsFrame, SkipTabs, SkipStars, HasAt;
    var line := SpellBox(b);
    FrameIsRead(line, b);
    PiecesStand(line, b);
    PieceFits(line, |b.indent| + 2 + |b.gap|, b.mark);
  }

  // ---- spelling what is read ----

  lemma TabsAre(s: string, i: nat)
    requires i <= |s|
    ensures AreTabs(s[i..SkipTabs(s, i)])
    decreases |s| - i
  {
    if i < |s| && IsTabOrSpace(s[i]) {
      TabsAre(s, i + 1);
      assert s[i..SkipTabs(s, i)] == [s[i]] + s[i + 1..SkipTabs(s, i + 1)];
    }
  }

  lemma {:induction false} StarsAre(s: string, i: nat) returns (groups: seq<string>)
    requires i <= |s|
    ensures (forall g :: g in groups ==> AreTabs(g)) && SpellStars(groups) == s[i..SkipStars(s, i)]
    decreases |s| - i
  {
    if HasAt(s, i, "**") {
      var j := SkipTabs(s, i + 2);
      var rest := StarsAre(s, j);
      TabsAre(s, i + 2);
      groups := [s[i + 2..j]] + rest;
      assert groups[1..] == rest && s[i..i + 2] == "**";
      var e := SkipStars(s, j);
      assert SkipStars(s, i) == e;
      assert s[i..e] == s[i..i + 2] + s[i + 2..j] + s[j..e];
    } else {
      groups := [];
    }
  }

  lemma ThePlaces(line: string, open: bool) returns (i: nat, j: nat, c: nat, d: nat, r: nat)
    requires BoxText(line, open).Some?
    ensures i < j < c < d <= r < |line| && BoxText(line, open) == Some(line[r + 1..])
    ensures i == SkipTabs(line, 0) && line[i] in {'-', '*', '+'} && j == SkipTabs(line, i + 1) && line[j] == '['
    ensures if open then c == SkipTabs(line, j + 1) else c == j + 2 && line[j + 1] in {'x', 'X'}
    ensures line[c] == ']' && d == SkipTabs(line, c + 1) && r == SkipStars(line, d) && line[r] == RED_CIRCLE
  {
    hide SkipTabs, SkipStars;
    i := SkipTabs(line, 0);
    j := SkipTabs(line, i + 1);
    c := if open then SkipTabs(line, j + 1) else j + 2;
    d := SkipTabs(line, c + 1);
    r := SkipStars(line, d);
  }

  lemma BoxIsSpelled(line: string, open: bool) returns (b: Box)
    requires BoxText(line, open).Some?
    ensures SpellBox(b) == line && b.rest == BoxText(line, open).value && if open then IsOpenBox(b) else IsTickedBox(b)
  {
    hide SkipTabs, SkipStars, SpellStars, AreTabs, SpellBox, BoxText;
    var i, j, c, d, r := ThePlaces(line, open);
    var groups := StarsAre(line, d);
    b := Box(line[0..i], line[i], line[i + 1..j], line[j + 1..c], line[c + 1..d], groups, line[r + 1..]);
    TabsAre(line, 0);
    TabsAre(line, i + 1);
    TabsAre(line, c + 1);
    if open {
      TabsAre(line, j + 1);
    } else {
      assert line[j + 1..c] == [line[j + 1]];
    }
    SpelledBox(line, i, j, c, d, r, groups);
  }

  lemma SpelledBox(line: string, i: nat, j: nat, c: nat, d: nat, r: nat, groups: seq<string>)
    requires i < j < c < d <= r < |line| && line[j] == '[' && line[c] == ']' && line[r] == RED_CIRCLE
    requires SpellStars(groups) == line[d..r]
    ensures SpellBox(Box(line[0..i], line[i], line[i + 1..j], line[j + 1..c], line[c + 1..d], groups, line[r + 1..])) == line
  {
    hide SpellStars;
    assert line == line[0..i] + [line[i]] + line[i + 1..j] + [line[j]] + line[j + 1..c] + [line[c]] + line[c + 1..d]
      + line[d..r] + [line[r]] + line[r + 1..];
  }

  /** `_OPEN_BLOCK` and `_CHECKED_BLOCK`: a line is read as an open or ticked box exactly when it is spelled like one. */
  lemma BoxIff(line: string, rest: string)
    ensures BoxText(line, true) == Some(rest) <==> exists b :: IsOpenBox(b) && SpellBox(b) == line && b.rest == rest
    ensures BoxText(line, false) == Some(rest) <==> exists b :: IsTickedBox(b) && SpellBox(b) == line && b.rest == rest
  {
    hide BoxText, SpellBox, IsOpenBox, IsTickedBox;
    if BoxText(line, true) == Some(rest) {
      var b := BoxIsSpelled(line, true);
    }
    if BoxText(line, false) == Some(rest) {
      var b := BoxIsSpelled(line, false);
    }
    forall b | IsOpenBox(b) && SpellBox(b) == line && b.rest == rest ensures BoxText(line, true) == Some(rest) {
      OpenIsRead(b);
    }
    forall b | IsTickedBox(b) && SpellBox(b) == line && b.rest == rest ensures BoxText(line, false) == Some(rest) {
      TickedIsRead(b);
    }
  }

  // ---- the boxes of a body ----

  ghost predicate ShowsOpenBox(body: string) {
    exists b :: IsOpenBox(b) && SpellBox(b) in SplitLines(body)
  }

  /** The body ticks a box with this text, which is not blank. */
  ghost predicate ShowsTickedBox(body: string, text: string) {
    text != "" && exists b :: IsTickedBox(b) && SpellBox(b) in SplitLines(body) && Normalize(b.rest) == text
  }

  lemma OpenBoxIff(body: string)
    ensures HasOpenBox(body) <==> ShowsOpenBox(body)
  {
    hide BoxText, SpellBox, IsOpenBox, SplitLines;
    if HasOpenBox(body) {
      var line :| line in SplitLines(body) && BoxText(line, true).Some?;
      var b := BoxIsSpelled(line, true);
    }
    forall b | IsOpenBox(b) && SpellBox(b) in SplitLines(body) ensures HasOpenBox(body) {
      OpenIsRead(b);
    }
  }

  lemma {:induction false} CheckedAre(lines: seq<string>, text: string)
    ensures text in CheckedIn(lines) <==>
      text != "" && exists line :: line in lines && BoxText(line, false).Some? && Normalize(BoxText(line, false).value) == text
  {
    hide BoxText, Normalize;
    if lines == [] {
    } else {
      CheckedAre(lines[1..], text);
      assert forall line :: line in lines <==> line == lines[0] || line in lines[1..];
    }
  }

  lemma TickedBoxIff(body: string, text: string)
    ensures text in CheckedLines(body) <==> ShowsTickedBox(body, text)
  {
    hide BoxText, SpellBox, IsTickedBox, SplitLines, Normalize, CheckedIn;
    CheckedAre(SplitLines(body), text);
    if text in CheckedLines(body) {
      var line :| line in SplitLines(body) && BoxText(line, false).Some? && Normalize(BoxText(line, false).value) == text;
      var b := BoxIsSpelled(line, false);
    }
    forall b | IsTickedBox(b) && SpellBox(b) in SplitLines(body) && Normalize(b.rest) == text && text != ""
      ensures text in CheckedLines(body)
    {
      TickedIsRead(b);
    }
  }

  /** A later comment clears the point of the comment with index `i`, which has an identifying line. */
  predicate ClearedBehind(comments: seq<string>, i: nat, head: string)
    requires i < |comments|
  {
    IdentifyingLine(comments[i]) != "" &&
    exists j :: i < j < |comments| && ClearsPoint(comments[j], IdentifyingLine(comments[i]), head)
  }

  /** The gate is green exactly when the body shows no open box, and every ticked box and raised point is cleared. */
  lemma {:induction false} GreenIff(body: string, comments: seq<string>, head: string)
    ensures Green(body, comments, head) <==>
      !ShowsOpenBox(body) &&
      (forall text :: ShowsTickedBox(body, text) ==> exists c :: c in comments && ClearsPoint(c, text, head)) &&
      (forall i :: 0 <= i < |comments| && Raises(comments[i]).Some? ==> ClearedBehind(comments, i, head)) &&
      (forall c :: c in comments ==> !NearMiss(c))
  {
    hide HasOpenBox, ShowsOpenBox, ShowsTickedBox, CheckedLines, ClearsPoint, Raises, IdentifyingLine, NearMiss, Green;
    GreenMeans(body, comments, head);
    OpenBoxIff(body);
    forall text ensures text in CheckedLines(body) <==> ShowsTickedBox(body, text) {
      TickedBoxIff(body, text);
    }
    forall text | text in CheckedLines(body)
      ensures IsCleared(text, comments, head) <==> exists c :: c in comments && ClearsPoint(c, text, head)
    {
      TextIsThere(body, text);
    }
    forall i | 0 <= i < |comments|
      ensures UnclearedAt(comments, i, head) <==> (Raises(comments[i]).Some? && !ClearedBehind(comments, i, head))
    {
      UnclearedIff(comments, i, head);
    }
  }

  lemma TextIsThere(body: string, text: string)
    requires text in CheckedLines(body)
    ensures text != ""
  {}

  lemma UnclearedIff(comments: seq<string>, i: nat, head: string)
    requires i < |comments|
    ensures UnclearedAt(comments, i, head) <==> (Raises(comments[i]).Some? && !ClearedBehind(comments, i, head))
  {
    hide ClearsPoint, Raises, IdentifyingLine;
    var text, later := IdentifyingLine(comments[i]), comments[i + 1..];
    assert forall j :: i < j < |comments| ==> comments[j] == later[j - i - 1];
    assert forall k :: 0 <= k < |later| ==> later[k] == comments[i + 1 + k];
    if c :| c in later && ClearsPoint(c, text, head) {
      var k :| 0 <= k < |later| && later[k] == c;
      assert ClearsPoint(comments[i + 1 + k], text, head);
    }
  }
}
