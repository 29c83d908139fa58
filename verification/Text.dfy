/** Text as a sequence of characters: the Python string operations that the gate scripts use. */
module Text {
  import opened Wrappers

  // ---- character classes ----

  /** What `str.strip`, `str.isspace` and the regex class `\s` treat as white space. */
  predicate IsSpace(c: char) {
    var n := c as int;
    9 <= n <= 13 || 28 <= n <= 32 || n == 0x85 || n == 0xA0 || n == 0x1680 || 0x2000 <= n <= 0x200A
    || n == 0x2028 || n == 0x2029 || n == 0x202F || n == 0x205F || n == 0x3000
  }

  predicate IsDigit(c: char) {
    '0' <= c <= '9'
  }

  predicate IsHex(c: char) {
    IsDigit(c) || 'a' <= c <= 'f' || 'A' <= c <= 'F'
  }

  /** The regex class `\w`: exact on Latin-1, by block on the scripts above it. */
  predicate IsWord(c: char) {
    var n := c as int;
    IsDigit(c) || 'a' <= c <= 'z' || 'A' <= c <= 'Z' || c == '_'
    || n == 0xAA || n == 0xB2 || n == 0xB3 || n == 0xB5 || n == 0xB9 || n == 0xBA || 0xBC <= n <= 0xBE
    || 0xC0 <= n <= 0xD6 || 0xD8 <= n <= 0xF6 || 0xF8 <= n <= 0x2C1
    || 0x386 <= n <= 0x3FF || 0x400 <= n <= 0x481 || 0x48A <= n <= 0x52F
    || 0x3041 <= n <= 0x3096 || 0x30A1 <= n <= 0x30FA || 0x30FC <= n <= 0x30FF
    || 0x3400 <= n <= 0x4DBF || 0x4E00 <= n <= 0x9FFF || 0xAC00 <= n <= 0xD7A3 || n == 0x212A
  }

  /** The white-space table, character by character, and the other classes on ASCII. */
  lemma ClassesAre(c: char)
    ensures IsSpace(c) <==> c as int in {
      9, 10, 11, 12, 13, 28, 29, 30, 31, 32, 0x85, 0xA0, 0x1680, 0x2000, 0x2001, 0x2002, 0x2003, 0x2004, 0x2005, 0x2006,
      0x2007, 0x2008, 0x2009, 0x200A, 0x2028, 0x2029, 0x202F, 0x205F, 0x3000}
    ensures c as int < 128 ==> (IsWord(c) <==> c == '_' || 48 <= c as int <= 57 || 65 <= c as int <= 90 || 97 <= c as int <= 122)
    ensures c as int < 128 ==> (IsHex(c) <==> 48 <= c as int <= 57 || 65 <= c as int <= 70 || 97 <= c as int <= 102)
  {}

  /** The simple case folding under which `re.IGNORECASE` compares a character with an ASCII letter. */
  function Fold(c: char): char {
    if 'A' <= c <= 'Z' then (c as int + 32) as char
    else if c as int == 0x212A then 'k'
    else if c as int == 0x17F then 's'
    else if c as int == 0x130 || c as int == 0x131 then 'i'
    else c
  }

  // ---- occurrences ----

  /** `pat` stands in `s` at offset `i`. */
  predicate HasAt(s: string, i: int, pat: string) {
    0 <= i && i + |pat| <= |s| && s[i..i + |pat|] == pat
  }

  predicate StartsWith(s: string, pat: string) {
    HasAt(s, 0, pat)
  }

  predicate EndsWith(s: string, pat: string) {
    HasAt(s, |s| - |pat|, pat)
  }

  /** Python's `pat in s`. */
  predicate Contains(s: string, pat: string) {
    exists k :: 0 <= k <= |s| && HasAt(s, k, pat)
  }

  /** Python's `s.find(pat, from)`: the first occurrence at or after `from`. */
  function Find(s: string, pat: string, from: nat): (r: Option<nat>)
    requires from <= |s|
    ensures r.Some? ==> from <= r.value && r.value + |pat| <= |s| && HasAt(s, r.value, pat)
    ensures r.Some? ==> forall k :: from <= k < r.value ==> !HasAt(s, k, pat)
    ensures r.None? ==> forall k :: from <= k ==> !HasAt(s, k, pat)
    decreases |s| - from
  {
    if HasAt(s, from, pat) then Some(from)
    else if from == |s| then None
    else Find(s, pat, from + 1)
  }

  /** A needle at `k` in the middle part is a needle at the shifted offset in the whole. */
  lemma HasAtInside(a: string, m: string, b: string, k: int, pat: string)
    requires HasAt(m, k, pat)
    ensures HasAt(a + m + b, |a| + k, pat)
  {
    assert (a + m + b)[|a| + k..|a| + k + |pat|] == m[k..k + |pat|];
  }

  lemma HasAtChar(s: string, i: int, pat: string, j: nat)
    requires HasAt(s, i, pat) && j < |pat|
    ensures s[i + j] == pat[j]
  {
    assert s[i..i + |pat|][j] == s[i + j];
  }

  lemma PieceFits(s: string, i: int, pat: string)
    requires HasAt(s, i, pat)
    ensures 0 <= i && i + |pat| <= |s| && (pat != "" ==> s[i] == pat[0])
  {
    if pat != "" {
      HasAtChar(s, i, pat, 0);
    }
  }

  lemma HasMiddle(a: string, m: string, b: string)
    ensures HasAt(a + m + b, |a|, m)
  {
  }

  /** The two halves of an occurrence of a concatenation. */
  lemma HasAtSplit(s: string, i: int, a: string, b: string)
    ensures HasAt(s, i, a + b) <==> HasAt(s, i, a) && HasAt(s, i + |a|, b)
  {
    if HasAt(s, i, a + b) {
      assert s[i..i + |a|] == (a + b)[..|a|];
      assert s[i + |a|..i + |a| + |b|] == (a + b)[|a|..];
    }
    if HasAt(s, i, a) && HasAt(s, i + |a|, b) {
      assert s[i..i + |a + b|] == s[i..i + |a|] + s[i + |a|..i + |a| + |b|];
    }
  }

  lemma ContainsInside(a: string, m: string, b: string, pat: string)
    requires Contains(m, pat)
    ensures Contains(a + m + b, pat)
  {
    var k :| 0 <= k <= |m| && HasAt(m, k, pat);
    HasAtInside(a, m, b, k, pat);
  }

  // ---- whole words ----

  /** No word character stands before the offset. */
  predicate WordStarts(s: string, i: int) {
    0 < i <= |s| ==> !IsWord(s[i - 1])
  }

  predicate WordEnds(s: string, j: int) {
    0 <= j < |s| ==> !IsWord(s[j])
  }

  /** `x` stands at `k` as a whole word. */
  predicate WholeWordAt(s: string, k: int, x: string) {
    HasAt(s, k, x) && WordStarts(s, k) && WordEnds(s, k + |x|)
  }

  ghost predicate Mentions(s: string, x: string) {
    exists k :: WholeWordAt(s, k, x)
  }

  // ---- runs ----

  /** The end of the maximal run of white space that starts at `i`. */
  function SkipSpaces(s: string, i: nat): (j: nat)
    requires i <= |s|
    ensures i <= j <= |s|
    ensures forall k :: i <= k < j ==> IsSpace(s[k])
    ensures j < |s| ==> !IsSpace(s[j])
    decreases |s| - i
  {
    if i < |s| && IsSpace(s[i]) then SkipSpaces(s, i + 1) else i
  }

  lemma SkipSpacesIs(s: string, i: nat, j: nat)
    requires i <= j <= |s| && (forall k :: i <= k < j ==> IsSpace(s[k])) && (j < |s| ==> !IsSpace(s[j]))
    ensures SkipSpaces(s, i) == j
  {
    hide IsSpace;
    var e := SkipSpaces(s, i);
    assert i <= e <= |s| && forall k :: i <= k < e ==> IsSpace(s[k]);
  }

  /** The end of the maximal run of ASCII digits that starts at `i`. */
  function DigitsEnd(s: string, i: nat): (j: nat)
    requires i <= |s|
    ensures i <= j <= |s|
    ensures forall k :: i <= k < j ==> IsDigit(s[k])
    ensures j < |s| ==> !IsDigit(s[j])
    decreases |s| - i
  {
    if i < |s| && IsDigit(s[i]) then DigitsEnd(s, i + 1) else i
  }

  lemma DigitsEndIs(s: string, i: nat, j: nat)
    requires i <= j <= |s|
    requires forall k :: i <= k < j ==> IsDigit(s[k])
    requires j < |s| ==> !IsDigit(s[j])
    ensures DigitsEnd(s, i) == j
  {
  }

  /** The end of the maximal run of hexadecimal digits that starts at `i`. */
  function HexEnd(s: string, i: nat): (j: nat)
    requires i <= |s|
    ensures i <= j <= |s|
    ensures forall k :: i <= k < j ==> IsHex(s[k])
    ensures j < |s| ==> !IsHex(s[j])
    decreases |s| - i
  {
    if i < |s| && IsHex(s[i]) then HexEnd(s, i + 1) else i
  }

  // ---- decimal numbers ----

  lemma HexEndIs(s: string, i: nat, j: nat)
    requires i <= j <= |s| && (forall k :: i <= k < j ==> IsHex(s[k])) && (j < |s| ==> !IsHex(s[j]))
    ensures HexEnd(s, i) == j
  {
    hide IsHex;
  }

  predicate IsNumeral(t: string) {
    t != "" && forall k :: 0 <= k < |t| ==> IsDigit(t[k])
  }

  /** `int(ds)` for a run of ASCII digits. */
  function ParseNat(ds: string): nat
    requires forall k :: 0 <= k < |ds| ==> IsDigit(ds[k])
  {
    if ds == [] then 0
    else
      var last := ds[|ds| - 1];
      assert IsDigit(last);
      10 * ParseNat(ds[..|ds| - 1]) + (last as int - '0' as int)
  }

  /** The decimal spelling of a number, as `diff` prints it. */
  function ShowNat(n: nat): (ds: string)
    ensures ds != [] && forall k :: 0 <= k < |ds| ==> IsDigit(ds[k])
  {
    var last := ('0' as int + n % 10) as char;
    if n < 10 then [last] else ShowNat(n / 10) + [last]
  }

  lemma {:induction false} ParseShow(n: nat)
    ensures ParseNat(ShowNat(n)) == n
  {
    if n >= 10 {
      ParseShow(n / 10);
      assert ShowNat(n)[..|ShowNat(n)| - 1] == ShowNat(n / 10);
    } else {
      assert ShowNat(n)[..0] == [];
    }
  }

  // ---- lines ----

  /** `"\n".join(lines)`. */
  function JoinLines(lines: seq<string>): string {
    if lines == [] then ""
    else if |lines| == 1 then lines[0]
    else lines[0] + "\n" + JoinLines(lines[1..])
  }

  /** The offset of the first line feed at or after `i`, or the end of the text. */
  function LineEnd(s: string, i: nat): (j: nat)
    requires i <= |s|
    ensures i <= j <= |s|
    ensures forall k :: i <= k < j ==> s[k] != '\n'
    ensures j < |s| ==> s[j] == '\n'
    decreases |s| - i
  {
    if i < |s| && s[i] != '\n' then LineEnd(s, i + 1) else i
  }

  /** `text.split("\n")`: always at least one piece. */
  function SplitLines(s: string): (lines: seq<string>)
    ensures lines != []
    decreases |s|
  {
    var j := LineEnd(s, 0);
    if j == |s| then [s] else [s[..j]] + SplitLines(s[j + 1..])
  }

  lemma LineEndIs(s: string, j: nat)
    requires j <= |s|
    requires forall k :: 0 <= k < j ==> s[k] != '\n'
    requires j < |s| ==> s[j] == '\n'
    ensures LineEnd(s, 0) == j
  {
  }

  lemma {:induction false} SplitCons(line: string, rest: string)
    requires '\n' !in line
    ensures SplitLines(line) == [line]
    ensures SplitLines(line + "\n" + rest) == [line] + SplitLines(rest)
  {
    var s := line + "\n" + rest;
    LineEndIs(line, |line|);
    LineEndIs(s, |line|);
    assert s[..|line|] == line && s[|line| + 1..] == rest;
  }

  lemma {:induction false} SplitJoin(lines: seq<string>)
    requires lines != []
    requires forall l :: l in lines ==> '\n' !in l
    ensures SplitLines(JoinLines(lines)) == lines
  {
    if |lines| == 1 {
      SplitCons(lines[0], "");
    } else {
      SplitCons(lines[0], JoinLines(lines[1..]));
      SplitJoin(lines[1..]);
    }
  }

  // ---- stripping ----

  /** The end of `s` without its trailing white space. */
  function TrimEnd(s: string, i: nat, j: nat): (e: nat)
    requires i <= j <= |s|
    ensures i <= e <= j
    ensures forall k :: e <= k < j ==> IsSpace(s[k])
    ensures i < e ==> !IsSpace(s[e - 1])
  {
    if i < j && IsSpace(s[j - 1]) then TrimEnd(s, i, j - 1) else j
  }

  /** `s.strip()`. */
  function Strip(s: string): string {
    var i := SkipSpaces(s, 0);
    s[i..TrimEnd(s, i, |s|)]
  }

  /** A text all of white space. */
  predicate Blank(s: string) {
    forall c :: c in s ==> IsSpace(c)
  }

  lemma StripBlank(s: string)
    ensures Strip(s) == "" <==> Blank(s)
  {
    var i := SkipSpaces(s, 0);
    if Strip(s) == "" {
      assert TrimEnd(s, i, |s|) == i;
      forall c | c in s ensures IsSpace(c) {
        var k :| 0 <= k < |s| && s[k] == c;
        assert k < i || i <= k;
      }
    } else {
      assert s[i] in s;
    }
  }
}
