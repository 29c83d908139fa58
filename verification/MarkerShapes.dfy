/** The marker patterns as shapes of a line. */
module MarkerShapes {
  import opened Wrappers
  import opened Text
  import opened Markers
  import opened MarkerLaws

  // ---- which line is read, and how ----

  predicate AllBlank(lines: seq<string>) {
    forall l :: l in lines ==> Strip(l) == ""
  }

  /** The first line that is not blank, stripped; none when all are blank. */
  lemma {:induction false} FirstNonBlankIs(before: seq<string>, line: string, after: seq<string>)
    requires AllBlank(before)
    ensures FirstNonBlank(before) == ""
    ensures Strip(line) != "" ==> FirstNonBlank(before + [line] + after) == Strip(line)
  {
    hide Strip;
    var lines := before + [line] + after;
    if before == [] {
      assert lines[0] == line;
    } else {
      assert before[0] in before && lines[0] == before[0] && lines[1..] == before[1..] + [line] + after;
      assert forall l :: l in before[1..] ==> l in before;
      FirstNonBlankIs(before[1..], line, after);
    }
  }

  /** Every backtick and asterisk goes, everything else stays. */
  lemma UndecoratedIs(a: string, c: char, b: string)
    ensures Undecorated("") == ""
    ensures Undecorated(a + [c] + b) == Undecorated(a) + (if c == '`' || c == '*' then "" else [c]) + Undecorated(b)
  {
    UndecoratedAppend(a + [c], b);
    UndecoratedAppend(a, [c]);
    assert Undecorated([c]) == (if IsDecoration(c) then "" else [c]) + Undecorated("");
  }

  // ---- the role prefix ----

  /** `**[`, a role, `]**`, white space, an em dash, white space. */
  predicate IsRolePrefix(t: string, role: string, gap: string, space: string) {
    role != "" && ']' !in role && gap != "" && Blank(gap) && space != "" && Blank(space) &&
    t == "**[" + role + "]**" + gap + ['\U{2014}'] + space
  }

  /** The keyword is looked for behind the longest such prefix, or at column 0. */
  lemma KeywordStartIff(line: string, i: nat)
    requires i <= |line|
    ensures RolePrefixEnd(line) == Some(i) <==>
      (i < |line| ==> !IsSpace(line[i])) && exists role, gap, space :: IsRolePrefix(line[..i], role, gap, space)
    ensures RolePrefixEnd(line) == Some(i) ==> KeywordStart(line) == i
    ensures RolePrefixEnd(line).None? ==> KeywordStart(line) == 0
  {
    hide RolePrefixEnd, IsSpace, IsRolePrefix;
    if RolePrefixEnd(line) == Some(i) {
      var role, gap, space := PrefixIsSpelled(line, i);
    }
    forall role, gap, space | IsRolePrefix(line[..i], role, gap, space) && (i < |line| ==> !IsSpace(line[i]))
      ensures RolePrefixEnd(line) == Some(i)
    {
      PrefixIsRead(line, i, role, gap, space);
    }
  }

  lemma BlankRange(s: string, i: nat, j: nat)
    requires i <= j <= |s|
    ensures Blank(s[i..j]) <==> forall k :: i <= k < j ==> IsSpace(s[k])
  {
    hide IsSpace;
    var t := s[i..j];
    assert forall k :: i <= k < j ==> t[k - i] == s[k];
    forall k | i <= k < j && Blank(t) ensures IsSpace(s[k]) {
      assert t[k - i] in t;
    }
    if forall k :: i <= k < j ==> IsSpace(s[k]) {
      forall c | c in t ensures IsSpace(c) {
        var k :| 0 <= k < |t| && t[k] == c;
        assert c == s[i + k];
      }
    }
  }

  lemma PrefixIsSpelled(line: string, i: nat) returns (role: string, gap: string, space: string)
    requires RolePrefixEnd(line) == Some(i)
    ensures i <= |line| && (i < |line| ==> !IsSpace(line[i])) && IsRolePrefix(line[..i], role, gap, space)
  {
    hide IsSpace, Blank, RolePrefixEnd;
    var j, k := RoleShapeOf(line);
    role, gap, space := line[3..j], line[j + 3..k], line[k + 1..i];
    BlankRange(line, j + 3, k);
    BlankRange(line, k + 1, i);
    assert line[0..3] == "**[" && line[j..j + 3] == "]**";
    PrefixStretches(line, i, j, k);
  }

  lemma PrefixStretches(line: string, i: nat, j: nat, k: nat)
    requires 3 <= j && j + 3 <= k < i <= |line|
    ensures line[..i] == line[0..3] + line[3..j] + line[j..j + 3] + line[j + 3..k] + [line[k]] + line[k + 1..i]
  {
    assert line[..j] == line[0..3] + line[3..j];
    assert line[..k] == line[..j] + line[j..j + 3] + line[j + 3..k];
    assert line[..i] == line[..k] + [line[k]] + line[k + 1..i];
  }

  lemma PrefixIsRead(line: string, i: nat, role: string, gap: string, space: string)
    requires i <= |line| && (i < |line| ==> !IsSpace(line[i])) && IsRolePrefix(line[..i], role, gap, space)
    ensures RolePrefixEnd(line) == Some(i)
  {
    hide IsSpace, RolePrefixEnd, HasAt;
    var j := 3 + |role|;
    var k := j + 3 + |gap|;
    var t := line[..i];
    assert i == k + 1 + |space|;
    PrefixPieces(t, role, gap, space);
    SamePrefixHas(t, line, i, 0, "**[");
    SamePrefixHas(t, line, i, j, "]**");
    assert forall x :: 0 <= x < i ==> line[x] == t[x];
    assert line[j + 3..k] == t[j + 3..k] == gap && line[k + 1..i] == t[k + 1..i] == space;
    BlankRange(line, j + 3, k);
    BlankRange(line, k + 1, i);
    forall x | 3 <= x < j ensures line[x] != ']' {
      assert line[x] == role[x - 3] && role[x - 3] in role;
    }
    assert line[k] == DASH;
    RoleShapeEnd(line, j, k);
    SkipSpacesIs(line, k + 1, i);
  }

  lemma PrefixPieces(t: string, role: string, gap: string, space: string)
    requires IsRolePrefix(t, role, gap, space)
    ensures var j, k := 3 + |role|, 6 + |role| + |gap|;
      |t| == k + 1 + |space| && HasAt(t, 0, "**[") && HasAt(t, j, "]**") && t[3..j] == role && t[j + 3..k] == gap &&
      t[k] == '\U{2014}' && t[k + 1..] == space
  {
    hide Blank;
    HasMiddle("**[" + role, "]**", gap + ['\U{2014}'] + space);
    assert "**[" + role + "]**" + (gap + ['\U{2014}'] + space) == t;
    assert t[0..3] == "**[";
  }

  // ---- `KEYWORD (head sha)` ----

  datatype HeadMark = HeadMark(a: string, b: string, c: string, sha: string, d: string)

  /** A marker with white space at the places where it may stand, and at least some before the sha. */
  predicate IsHeadMark(m: HeadMark) {
    Blank(m.a) && Blank(m.b) && m.c != "" && Blank(m.c) && Blank(m.d) &&
    7 <= |m.sha| <= 40 && forall c :: c in m.sha ==> '0' <= c <= '9' || 'a' <= c <= 'f' || 'A' <= c <= 'F'
  }

  function SpellHeadMark(keyword: string, m: HeadMark): string {
    keyword + m.a + "(" + m.b + "head" + m.c + m.sha + m.d + ")"
  }

  lemma SpacesAt(line: string, i: nat, t: string)
    requires HasAt(line, i, t) && Blank(t) && i + |t| < |line| && !IsSpace(line[i + |t|])
    ensures SkipSpaces(line, i) == i + |t|
  {
    hide IsSpace;
    forall k | i <= k < i + |t| ensures IsSpace(line[k]) {
      HasAtChar(line, i, t, k - i);
      assert t[k - i] in t;
    }
    SkipSpacesIs(line, i, i + |t|);
  }

  lemma HexAt(line: string, i: nat, t: string)
    requires HasAt(line, i, t) && (forall c :: c in t ==> IsHex(c)) && i + |t| < |line| && !IsHex(line[i + |t|])
    ensures HexEnd(line, i) == i + |t| && line[i..i + |t|] == t
  {
    hide IsHex;
    forall k | i <= k < i + |t| ensures IsHex(line[k]) {
      HasAtChar(line, i, t, k - i);
      assert t[k - i] in t;
    }
    HexEndIs(line, i, i + |t|);
  }

  /** The pieces of a spelled marker stand one behind the other. */
  lemma PiecesStand(line: string, i: nat, keyword: string, m: HeadMark)
    requires HasAt(line, i, SpellHeadMark(keyword, m))
    ensures var n := i + |keyword|;
      var p := n + |m.a|;
      var h := p + 1 + |m.b|;
      var s := h + 4 + |m.c|;
      var e := s + |m.sha|;
      var q := e + |m.d|;
      HasAt(line, i, keyword) && HasAt(line, n, m.a) && HasAt(line, p, "(") && HasAt(line, p + 1, m.b) &&
      HasAt(line, h, "head") && HasAt(line, h + 4, m.c) && HasAt(line, s, m.sha) && HasAt(line, e, m.d) && HasAt(line, q, ")")
  {
    hide HasAt;
    HasAtSplit(line, i, keyword + m.a + "(" + m.b + "head" + m.c + m.sha + m.d, ")");
    HasAtSplit(line, i, keyword + m.a + "(" + m.b + "head" + m.c + m.sha, m.d);
    HasAtSplit(line, i, keyword + m.a + "(" + m.b + "head" + m.c, m.sha);
    HasAtSplit(line, i, keyword + m.a + "(" + m.b + "head", m.c);
    HasAtSplit(line, i, keyword + m.a + "(" + m.b, "head");
    HasAtSplit(line, i, keyword + m.a + "(", m.b);
    HasAtSplit(line, i, keyword + m.a, "(");
    HasAtSplit(line, i, keyword, m.a);
  }

  lemma LiteralStands(line: string, i: nat, literal: string)
    requires HasAt(line, i, literal) && literal in {"(", "head", ")"}
    ensures i < |line| && line[i] == literal[0] && !IsSpace(line[i])
  {
    HasAtChar(line, i, literal, 0);
  }

  /** A spelled marker is read. */
  lemma HeadMarkIsRead(line: string, i: nat, keyword: string, m: HeadMark)
    requires IsHeadMark(m) && HasAt(line, i, SpellHeadMark(keyword, m))
    ensures i <= |line| && HeadMarkerAt(line, i, keyword) == Some(m.sha)
  {
    hide IsSpace, SkipSpaces, HexEnd, Blank, SpellHeadMark, HasAt, HeadMarkerAt;
    var n := i + |keyword|;
    var p := n + |m.a|;
    var h := p + 1 + |m.b|;
    var s := h + 4 + |m.c|;
    var e := s + |m.sha|;
    var q := e + |m.d|;
    PiecesStand(line, i, keyword, m);
    ShaChars(m);
    LiteralStands(line, p, "(");
    LiteralStands(line, h, "head");
    LiteralStands(line, q, ")");
    PieceFits(line, s, m.sha);
    PieceFits(line, e, m.d);
    GapIsNoHex(m);
    SpacesAt(line, n, m.a);
    SpacesAt(line, p + 1, m.b);
    SpacesAt(line, h + 4, m.c);
    HexAt(line, s, m.sha);
    SpacesAt(line, e, m.d);
    PlacesAre(line, i, keyword, p, h, s, e, q);
  }

  /** The reader goes from place to place. */
  lemma PlacesAre(line: string, i: nat, keyword: string, p: nat, h: nat, s: nat, e: nat, q: nat)
    requires HasAt(line, i, keyword) && SkipSpaces(line, i + |keyword|) == p && HasAt(line, p, "(")
    requires SkipSpaces(line, p + 1) == h && HasAt(line, h, "head") && SkipSpaces(line, h + 4) == s && h + 4 < s
    requires HexEnd(line, s) == e && 7 <= e - s <= 40 && SkipSpaces(line, e) == q && HasAt(line, q, ")")
    ensures HeadMarkerAt(line, i, keyword) == Some(line[s..e])
  {
    hide IsSpace, SkipSpaces, HexEnd, HasAt, IsHex;
  }

  lemma ShaChars(m: HeadMark)
    requires IsHeadMark(m)
    ensures (forall c :: c in m.sha ==> IsHex(c)) && m.sha != "" && !IsSpace(m.sha[0])
  {
    hide Blank;
    assert m.sha[0] in m.sha;
  }

  lemma GapIsNoHex(m: HeadMark)
    requires IsHeadMark(m)
    ensures m.d != "" ==> !IsHex(m.d[0])
  {
    if m.d != "" {
      assert m.d[0] in m.d;
    }
  }

  lemma HeadMarkIsSpelled(line: string, i: nat, keyword: string) returns (m: HeadMark)
    requires i <= |line| && HeadMarkerAt(line, i, keyword).Some?
    ensures IsHeadMark(m) && Some(m.sha) == HeadMarkerAt(line, i, keyword) && HasAt(line, i, SpellHeadMark(keyword, m))
  {
    hide IsSpace, Blank, SkipSpaces, HexEnd, IsHex, SpellHeadMark, HeadMarkerAt;
    var p, h, s, e, q := ThePlaces(line, i, keyword);
    var n := i + |keyword|;
    m := HeadMark(line[n..p], line[p + 1..h], line[h + 4..s], line[s..e], line[e..q]);
    BlankRange(line, n, p);
    BlankRange(line, p + 1, h);
    BlankRange(line, h + 4, s);
    BlankRange(line, e, q);
    HeadMarkChars(line, i, keyword, m.sha);
    SpelledStretches(line, i, keyword, p, h, s, e, q);
  }

  lemma ThePlaces(line: string, i: nat, keyword: string) returns (p: nat, h: nat, s: nat, e: nat, q: nat)
    requires i <= |line| && HeadMarkerAt(line, i, keyword).Some?
    ensures i + |keyword| <= p && p + 1 <= h && h + 4 < s <= e <= q < |line| && HeadMarkerAt(line, i, keyword) == Some(line[s..e])
    ensures HasAt(line, i, keyword) && HasAt(line, p, "(") && HasAt(line, h, "head") && HasAt(line, q, ")")
    ensures (forall k :: i + |keyword| <= k < p ==> IsSpace(line[k])) && (forall k :: p + 1 <= k < h ==> IsSpace(line[k]))
    ensures (forall k :: h + 4 <= k < s ==> IsSpace(line[k])) && (forall k :: e <= k < q ==> IsSpace(line[k]))
  {
    hide IsSpace, IsHex;
    p := SkipSpaces(line, i + |keyword|);
    h := SkipSpaces(line, p + 1);
    s := SkipSpaces(line, h + 4);
    e := HexEnd(line, s);
    q := SkipSpaces(line, e);
  }

  lemma SliceStands(line: string, a: nat, b: nat)
    requires a <= b <= |line|
    ensures HasAt(line, a, line[a..b])
  {}

  lemma SpelledStretches(line: string, i: nat, keyword: string, p: nat, h: nat, s: nat, e: nat, q: nat)
    requires i + |keyword| <= p && p + 1 <= h && h + 4 <= s <= e <= q < |line|
    requires HasAt(line, i, keyword) && HasAt(line, p, "(") && HasAt(line, h, "head") && HasAt(line, q, ")")
    ensures HasAt(line, i, SpellHeadMark(keyword,
      HeadMark(line[i + |keyword|..p], line[p + 1..h], line[h + 4..s], line[s..e], line[e..q])))
  {
    hide HasAt;
    var a, b, c, sha, d := line[i + |keyword|..p], line[p + 1..h], line[h + 4..s], line[s..e], line[e..q];
    SliceStands(line, i + |keyword|, p);
    SliceStands(line, p + 1, h);
    SliceStands(line, h + 4, s);
    SliceStands(line, s, e);
    SliceStands(line, e, q);
    HasAtSplit(line, i, keyword, a);
    HasAtSplit(line, i, keyword + a, "(");
    HasAtSplit(line, i, keyword + a + "(", b);
    HasAtSplit(line, i, keyword + a + "(" + b, "head");
    HasAtSplit(line, i, keyword + a + "(" + b + "head", c);
    HasAtSplit(line, i, keyword + a + "(" + b + "head" + c, sha);
    HasAtSplit(line, i, keyword + a + "(" + b + "head" + c + sha, d);
    HasAtSplit(line, i, keyword + a + "(" + b + "head" + c + sha + d, ")");
  }

  lemma HeadMarkChars(line: string, i: nat, keyword: string, sha: string)
    requires i <= |line| && HeadMarkerAt(line, i, keyword) == Some(sha)
    ensures 7 <= |sha| <= 40 && forall c :: c in sha ==> '0' <= c <= '9' || 'a' <= c <= 'f' || 'A' <= c <= 'F'
  {
    hide HeadMarkerAt;
    assert forall c :: c in sha ==> IsHex(c);
  }

  /** A marker is read exactly where one is spelled. */
  lemma HeadMarkIff(line: string, i: nat, keyword: string, sha: string)
    requires i <= |line|
    ensures HeadMarkerAt(line, i, keyword) == Some(sha) <==>
      exists m :: IsHeadMark(m) && m.sha == sha && HasAt(line, i, SpellHeadMark(keyword, m))
  {
    hide HeadMarkerAt, IsHeadMark, SpellHeadMark;
    if HeadMarkerAt(line, i, keyword) == Some(sha) {
      var m := HeadMarkIsSpelled(line, i, keyword);
    }
    forall m | IsHeadMark(m) && m.sha == sha && HasAt(line, i, SpellHeadMark(keyword, m))
      ensures HeadMarkerAt(line, i, keyword) == Some(sha)
    {
      HeadMarkIsRead(line, i, keyword, m);
    }
  }

  /** A comment's first line that is not blank, decoration gone but in a role prefix. */
  function ReadLine(comment: string): string {
    var first := FirstNonemptyLine(comment);
    match RolePrefixEnd(first)
    case None => Undecorated(first)
    case Some(i) => first[..i] + Undecorated(first[i..])
  }

  lemma MarkerLineIs(comment: string)
    ensures MarkerLine(comment) == ReadLine(comment)
  {
    hide Undecorated, RolePrefixEnd, FirstNonemptyLine;
    var first := FirstNonemptyLine(comment);
    assert first[..0] + Undecorated(first[0..]) == Undecorated(first) by {
      assert first[0..] == first && first[..0] == "";
    }
  }

  /** `MARKER_BLOCKING` and `MARKER_CLEARED` on the line where a comment's marker must stand. */
  lemma RaisesIff(comment: string, sha: string)
    ensures var line := ReadLine(comment);
      (Raises(comment) == Some(sha) <==>
        exists m :: IsHeadMark(m) && m.sha == sha && HasAt(line, KeywordStart(line), SpellHeadMark("BLOCKING", m))) &&
      (Clears(comment) == Some(sha) <==>
        exists m :: IsHeadMark(m) && m.sha == sha && HasAt(line, KeywordStart(line), SpellHeadMark("BLOCKING-CLEARED", m)))
  {
    hide HeadMarkerAt, IsHeadMark, SpellHeadMark, MarkerLine, KeywordStart, ReadLine;
    var line := ReadLine(comment);
    MarkerLineIs(comment);
    HeadMarkIff(line, KeywordStart(line), "BLOCKING", sha);
    HeadMarkIff(line, KeywordStart(line), "BLOCKING-CLEARED", sha);
  }

  /** A near miss shows the word on its first line and is read as neither marker. */
  lemma NearMissIff(comment: string)
    ensures NearMiss(comment) <==>
      Mentions(Undecorated(FirstNonemptyLine(comment)), "BLOCKING") && Raises(comment) == None && Clears(comment) == None
  {
    hide NamesBlocking, Mentions, Undecorated, FirstNonemptyLine, Raises, Clears;
    NamesBlockingIff(Undecorated(FirstNonemptyLine(comment)));
    NothingIsMentioned();
  }

  lemma NothingIsMentioned()
    ensures Undecorated("") == "" && !Mentions("", "BLOCKING")
  {}

  // ---- words ----

  /** `\bBLOCKING\b` finds the word standing by itself. */
  lemma NamesBlockingIff(line: string)
    ensures NamesBlocking(line) <==> Mentions(line, "BLOCKING")
  {
    hide IsWord, IsBoundary, HasAt;
    if k :| 0 <= k <= |line| - 8 && HasAt(line, k, BLOCKING) && IsBoundary(line, k) && IsBoundary(line, k + 8) {
      WordIff(line, k);
      assert WholeWordAt(line, k, "BLOCKING");
    }
    if k :| WholeWordAt(line, k, "BLOCKING") {
      WordIff(line, k);
    }
  }

  lemma WordIff(line: string, k: int)
    requires HasAt(line, k, "BLOCKING")
    ensures 0 <= k <= |line| - 8
    ensures IsBoundary(line, k) && IsBoundary(line, k + 8) <==> WholeWordAt(line, k, "BLOCKING")
  {
    hide IsWord;
    HasAtChar(line, k, "BLOCKING", 0);
    HasAtChar(line, k, "BLOCKING", 7);
    LettersAreWords();
  }

  lemma LettersAreWords()
    ensures IsWord('B') && IsWord('G')
  {}

  lemma FoldedLetter(c: char)
    requires 'a' <= Fold(c) <= 'z'
    ensures IsWord(c)
  {}

  lemma FoldEnd(s: string, i: nat, word: string)
    requires FoldHasAt(s, i, word) && word != "" && 'a' <= word[|word| - 1] <= 'z'
    ensures i + |word| <= |s| && (IsBoundary(s, i + |word|) <==> WordEnds(s, i + |word|))
  {
    hide IsWord;
    assert Fold(s[i + (|word| - 1)]) == word[|word| - 1];
    FoldedLetter(s[i + |word| - 1]);
  }

  /** The line opens with TESTS-READ or TESTS-READY, in any case, and nothing of a word behind it. */
  predicate OpensNote(line: string) {
    var i := KeywordStart(line);
    (FoldHasAt(line, i, "tests-read") && WordEnds(line, i + 10)) || (FoldHasAt(line, i, "tests-ready") && WordEnds(line, i + 11))
  }

  /** The line opens with RE-READ in any case and `(head `, with white space at the usual places. */
  ghost predicate OpensReread(line: string) {
    var i := KeywordStart(line);
    FoldHasAt(line, i, "re-read") &&
    exists p, h :: RereadFits(line, i, p, h)
  }

  predicate RereadFits(line: string, i: nat, p: nat, h: nat) {
    i + 7 <= p && p + 1 <= h && h + 4 < |line| && Blank(line[i + 7..p]) && line[p] == '(' && Blank(line[p + 1..h]) &&
    FoldHasAt(line, h, "head") && IsSpace(line[h + 4])
  }

  /** `NOTE_MARKER`. */
  lemma NoteIff(line: string)
    ensures IsNote(line) <==> OpensNote(line)
  {
    hide IsWord, KeywordStart, FoldHasAt, IsBoundary, WordEnds;
    var i := KeywordStart(line);
    if FoldHasAt(line, i, "tests-read") {
      FoldEnd(line, i, "tests-read");
    }
    if FoldHasAt(line, i, "tests-ready") {
      FoldEnd(line, i, "tests-ready");
      ReadyIsRead(line, i);
    }
  }

  lemma ReadyIsRead(line: string, i: nat)
    requires FoldHasAt(line, i, "tests-ready")
    ensures FoldHasAt(line, i, "tests-read")
  {
    var long, short := "tests-ready", "tests-read";
    assert forall j :: 0 <= j < |short| ==> short[j] == long[j];
  }

  /** The marker that only the re-read gate owns. */
  lemma RereadIff(line: string)
    ensures IsReRead(line) <==> OpensReread(line)
  {
    hide IsSpace, FoldHasAt, Blank, KeywordStart, HasAt, RereadFits;
    var i := KeywordStart(line);
    if IsReRead(line) {
      FoldFits(line, i, "re-read");
      var p := SkipSpaces(line, i + 7);
      PieceFits(line, p, "(");
      var h := SkipSpaces(line, p + 1);
      FitsWhere(line, i, p, h);
    }
    if OpensReread(line) {
      var p, h :| RereadFits(line, i, p, h);
      FitIsRead(line, i, p, h);
    }
  }

  lemma FitsWhere(line: string, i: nat, p: nat, h: nat)
    requires i + 7 <= |line| && p == SkipSpaces(line, i + 7) && p < |line| && line[p] == '(' && h == SkipSpaces(line, p + 1)
    requires h + 4 < |line| && FoldHasAt(line, h, "head") && IsSpace(line[h + 4])
    ensures RereadFits(line, i, p, h)
  {
    hide IsSpace, FoldHasAt, Blank;
    BlankRange(line, i + 7, p);
    BlankRange(line, p + 1, h);
  }

  lemma FitIsRead(line: string, i: nat, p: nat, h: nat)
    requires RereadFits(line, i, p, h)
    ensures i + 7 <= |line| && SkipSpaces(line, i + 7) == p && HasAt(line, p, "(") && SkipSpaces(line, p + 1) == h
    ensures FoldHasAt(line, h, "head") && h + 4 < |line| && IsSpace(line[h + 4])
  {
    hide IsSpace, FoldHasAt, Blank;
    BlankRange(line, i + 7, p);
    BlankRange(line, p + 1, h);
    assert line[p..p + 1] == "(";
    LiteralStands(line, p, "(");
    SkipSpacesIs(line, i + 7, p);
    HeadIsNoSpace(line, h);
    SkipSpacesIs(line, p + 1, h);
  }

  lemma FoldFits(s: string, i: nat, word: string)
    requires FoldHasAt(s, i, word)
    ensures i + |word| <= |s|
  {}

  lemma HeadIsNoSpace(s: string, h: nat)
    requires FoldHasAt(s, h, "head")
    ensures h < |s| && !IsSpace(s[h])
  {
    assert Fold(s[h + 0]) == "head"[0];
  }
}
