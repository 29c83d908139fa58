/** The shared recognisers of review markers: each reads one line, from its first character. */
module Markers {
  import opened Wrappers
  import opened Text

  const DASH := '\U{2014}'

  /** A marker of the form `KEYWORD (head <sha>)`. */
  const BLOCKING := "BLOCKING"
  const CLEARED := "BLOCKING-CLEARED"

  // ---- the role prefix ----

  /** The offset of the first `]` at or after `i`, or the end. */
  function BracketEnd(s: string, i: nat): (j: nat)
    requires i <= |s|
    ensures i <= j <= |s|
    ensures forall k :: i <= k < j ==> s[k] != ']'
    ensures j < |s| ==> s[j] == ']'
    decreases |s| - i
  {
    if i < |s| && s[i] != ']' then BracketEnd(s, i + 1) else i
  }

  /** The end of `\*\*\[[^\]]+\]\*\*\s+—\s+` at the start of the line. */
  function RolePrefixEnd(line: string): (r: Option<nat>)
    ensures r.Some? ==> 3 < r.value <= |line| && IsSpace(line[r.value - 1]) && (r.value < |line| ==> !IsSpace(line[r.value]))
  {
    if !StartsWith(line, "**[") then None
    else
      var j := BracketEnd(line, 3);
      if j == 3 || !HasAt(line, j, "]**") then None
      else
        var k := SkipSpaces(line, j + 3);
        if k == j + 3 || k == |line| || line[k] != DASH then None
        else
          var e := SkipSpaces(line, k + 1);
          if e == k + 1 then None else Some(e)
  }

  /** Where a marker's keyword must stand: after the role prefix, or at column 0. */
  function KeywordStart(line: string): (i: nat)
    ensures i <= |line|
  {
    if RolePrefixEnd(line).Some? then RolePrefixEnd(line).value else 0
  }

  // ---- decoration ----

  predicate IsDecoration(c: char) {
    c == '`' || c == '*'
  }

  /** `undecorated`. */
  function Undecorated(s: string): (r: string)
    ensures |r| <= |s| && forall c :: c in r ==> !IsDecoration(c)
  {
    if s == "" then ""
    else (if IsDecoration(s[0]) then "" else [s[0]]) + Undecorated(s[1..])
  }

  /** `undecorated_after_role_prefix`. */
  function UndecoratedAfterRole(line: string): string {
    var i := KeywordStart(line);
    line[..i] + Undecorated(line[i..])
  }

  // ---- lines of a comment ----

  function FirstNonBlank(lines: seq<string>): string {
    if lines == [] then ""
    else if Strip(lines[0]) != "" then Strip(lines[0])
    else FirstNonBlank(lines[1..])
  }

  /** `first_nonempty_line`. */
  function FirstNonemptyLine(text: string): string {
    FirstNonBlank(SplitLines(text))
  }

  // ---- markers ----

  /** `keyword\s*\(\s*head\s+([0-9a-fA-F]{7,40})\s*\)` at offset `i`: the captured sha. */
  function HeadMarkerAt(line: string, i: nat, keyword: string): (r: Option<string>)
    requires i <= |line|
    ensures r.Some? ==> HasAt(line, i, keyword) && 7 <= |r.value| <= 40 && forall c :: c in r.value ==> IsHex(c)
  {
    if !HasAt(line, i, keyword) then None
    else
      var p := SkipSpaces(line, i + |keyword|);
      if !HasAt(line, p, "(") then None
      else
        var h := SkipSpaces(line, p + 1);
        if !HasAt(line, h, "head") then None
        else
          var s := SkipSpaces(line, h + 4);
          var e := HexEnd(line, s);
          if s == h + 4 || !(7 <= e - s <= 40) then None
          else
            var q := SkipSpaces(line, e);
            if HasAt(line, q, ")") then Some(line[s..e]) else None
  }

  /** `MARKER_BLOCKING.match(line)`; the lookahead `(?!-CLEARED)` adds nothing, as `-` starts no match of the rest. */
  function BlockingSha(line: string): (r: Option<string>) {
    HeadMarkerAt(line, KeywordStart(line), BLOCKING)
  }

  /** `MARKER_CLEARED.match(line)`. */
  function ClearedSha(line: string): (r: Option<string>) {
    HeadMarkerAt(line, KeywordStart(line), CLEARED)
  }

  /** A keyword in lower case stands at `i` in any case. */
  predicate FoldHasAt(s: string, i: int, keyword: string) {
    0 <= i && i + |keyword| <= |s| && forall j :: 0 <= j < |keyword| ==> Fold(s[i + j]) == keyword[j]
  }

  /** The regex boundary `\b` at offset `i`. */
  predicate IsBoundary(s: string, i: nat)
    requires i <= |s|
  {
    (i > 0 && IsWord(s[i - 1])) != (i < |s| && IsWord(s[i]))
  }

  /** `NOTE_MARKER`: `TESTS-READ(?:Y)?\b`, in any case. */
  predicate IsNote(line: string) {
    var i := KeywordStart(line);
    FoldHasAt(line, i, "tests-read")
    && (IsBoundary(line, i + 10) || (FoldHasAt(line, i, "tests-ready") && IsBoundary(line, i + 11)))
  }

  /** `RE-READ\s*\(\s*head\s`, in any case: the marker that only the re-read gate owns. */
  predicate IsReRead(line: string) {
    var i := KeywordStart(line);
    FoldHasAt(line, i, "re-read")
    && (var p := SkipSpaces(line, i + 7);
        HasAt(line, p, "(")
        && (var h := SkipSpaces(line, p + 1);
            FoldHasAt(line, h, "head") && h + 4 < |line| && IsSpace(line[h + 4])))
  }

  /** `\bBLOCKING\b` searched anywhere in the line. */
  predicate NamesBlocking(line: string) {
    exists k :: 0 <= k <= |line| - 8 && HasAt(line, k, BLOCKING) && IsBoundary(line, k) && IsBoundary(line, k + 8)
  }

  // ---- raising, clearing and near misses ----

  /** The line of a comment on which both gates look for a marker. */
  function MarkerLine(comment: string): string {
    UndecoratedAfterRole(FirstNonemptyLine(comment))
  }

  function Raises(comment: string): Option<string> {
    BlockingSha(MarkerLine(comment))
  }

  function Clears(comment: string): Option<string> {
    ClearedSha(MarkerLine(comment))
  }

  /** The comment's first line, freed of all decoration, contains the word. */
  predicate NamesMarker(comment: string) {
    FirstNonemptyLine(comment) != "" && NamesBlocking(Undecorated(FirstNonemptyLine(comment)))
  }

  predicate NearMiss(comment: string) {
    NamesMarker(comment) && Raises(comment).None? && Clears(comment).None?
  }

  lemma {:induction false} BlockingIsNotCleared(line: string, i: nat)
    requires i <= |line| && HeadMarkerAt(line, i, BLOCKING).Some?
    ensures HeadMarkerAt(line, i, CLEARED).None?
  {
    hide HexEnd, SkipSpaces;
    if HasAt(line, i, CLEARED) {
      HasAtChar(line, i, CLEARED, 8);
      var p := SkipSpaces(line, i + 8);
      HasAtChar(line, p, "(", 0);
    }
  }

  lemma {:induction false} UndecoratedAppend(a: string, b: string)
    ensures Undecorated(a + b) == Undecorated(a) + Undecorated(b)
  {
    if a == "" {
      assert a + b == b;
    } else {
      assert (a + b)[0] == a[0] && (a + b)[1..] == a[1..] + b;
      UndecoratedAppend(a[1..], b);
    }
  }

  lemma {:induction false} UndecoratedFixed(s: string)
    requires forall c :: c in s ==> !IsDecoration(c)
    ensures Undecorated(s) == s
  {
    if s == "" {
    } else {
      assert s[0] in s;
      UndecoratedFixed(s[1..]);
    }
  }
}
