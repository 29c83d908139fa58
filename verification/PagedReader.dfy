/**
  The reader of `gh api --paginate` output: complete documents back to back, with white space between
  them (scripts/detect_5265_startup_failure_blocked_prs.py).
 */
module PagedReader {
  import opened Wrappers
  import opened Text

  // ---- the decoder as a parameter ----

  /**
    `scan(s)` is the length of the document that `raw_decode` reads at the start of `s`, if there is
    one. A document is never empty.
   */
  ghost predicate Advances(scan: string -> Option<nat>) {
    forall s :: scan(s).Some? ==> 0 < scan(s).value <= |s|
  }

  /** The scanner finds a document of the language wherever one starts, and finds nothing else. */
  ghost predicate Scans(lang: string -> bool, scan: string -> Option<nat>) {
    && (forall s :: scan(s).Some? ==> 0 < scan(s).value <= |s| && lang(s[..scan(s).value]))
    && (forall s, n | 0 <= n <= |s| :: lang(s[..n]) ==> scan(s).Some?)
  }

  ghost predicate PrefixFree(lang: string -> bool) {
    forall a, b :: lang(a) && lang(b) && a <= b ==> a == b
  }

  /** Documents neither begin nor end in white space, and none is the beginning of another. */
  ghost predicate SelfDelimiting(lang: string -> bool) {
    PrefixFree(lang) && forall t :: lang(t) ==> t != "" && !IsSpace(t[0]) && !IsSpace(t[|t| - 1])
  }

  // ---- reading ----

  function SkipGap(s: string): string {
    s[SkipSpaces(s, 0)..]
  }

  /** The documents of a text that starts with one, or nothing when some part cannot be decoded. */
  ghost function Split(scan: string -> Option<nat>, s: string): Option<seq<string>>
    requires Advances(scan)
    decreases |s|
  {
    if s == "" then Some([])
    else match scan(s)
      case None => None
      case Some(n) => Prepend([s[..n]], Split(scan, SkipGap(s[n..])))
  }

  function Prepend<T>(front: seq<T>, rest: Option<seq<T>>): Option<seq<T>> {
    if rest.Some? then Some(front + rest.value) else None
  }

  lemma PrependNothing<T>(rest: Option<seq<T>>)
    ensures Prepend([], rest) == rest
  {
    assert rest.Some? ==> [] + rest.value == rest.value;
  }

  /** `_parse_paginated_json`, up to the decoding of each document; `None` for the decode error. */
  method ParsePaginated(scan: string -> Option<nat>, stdout: string) returns (r: Option<seq<string>>)
    requires Advances(scan)
    ensures r == Split(scan, Strip(stdout))
  {
    hide IsSpace, Split, Strip;
    var text := Strip(stdout);
    var pages: seq<string>, idx := [], 0;
    assert text[0..] == text;
    PrependNothing(Split(scan, text));
    while idx < |text|
      invariant 0 <= idx <= |text|
      invariant Split(scan, text) == Prepend(pages, Split(scan, text[idx..]))
    {
      SplitStep(scan, text, idx);
      var here := scan(text[idx..]);
      if here.None? {
        return None;
      }
      ghost var before, start := pages, idx;
      var end := idx + here.value;
      pages := pages + [text[idx..end]];
      idx := end;
      while idx < |text| && IsSpace(text[idx])
        invariant end <= idx <= |text|
        invariant forall k :: end <= k < idx ==> IsSpace(text[k])
      {
        idx := idx + 1;
      }
      SkipSpacesIs(text[end..], 0, idx - end);
      assert SkipGap(text[end..]) == text[idx..];
      PrependTwice(before, [text[start..end]], Split(scan, text[idx..]));
    }
    SplitNothing(scan);
    assert text[idx..] == "" && pages + [] == pages;
    r := Some(pages);
  }

  lemma PrependTwice<T>(a: seq<T>, b: seq<T>, rest: Option<seq<T>>)
    ensures Prepend(a, Prepend(b, rest)) == Prepend(a + b, rest)
  {
    if rest.Some? {
      assert a + (b + rest.value) == (a + b) + rest.value;
    }
  }

  lemma SplitNothing(scan: string -> Option<nat>)
    requires Advances(scan)
    ensures Split(scan, "") == Some([])
  {}

  /** One turn of the outer loop. */
  lemma SplitStep(scan: string -> Option<nat>, text: string, idx: nat)
    requires Advances(scan) && idx < |text|
    ensures scan(text[idx..]).None? ==> Split(scan, text[idx..]) == None
    ensures scan(text[idx..]).Some? ==>
      var end := idx + scan(text[idx..]).value;
      end <= |text| && Split(scan, text[idx..]) == Prepend([text[idx..end]], Split(scan, SkipGap(text[end..])))
  {
    hide SkipSpaces, SkipGap;
    var s := text[idx..];
    if scan(s).Some? {
      var n := scan(s).value;
      assert s[..n] == text[idx..idx + n] && s[n..] == text[idx + n..];
    }
  }

  // ---- what the text says ----

  /** White space, the first document, white space, the second document, and so on. */
  ghost predicate IsStream(s: string, texts: seq<string>)
    decreases |texts|
  {
    if texts == [] then Blank(s)
    else exists i :: StandsAfterGap(s, i, texts[0]) && IsStream(s[i + |texts[0]|..], texts[1..])
  }

  predicate StandsAfterGap(s: string, i: int, t: string) {
    HasAt(s, i, t) && Blank(s[..i])
  }

  ghost predicate AllIn(lang: string -> bool, texts: seq<string>) {
    forall t :: t in texts ==> lang(t)
  }

  lemma GapIs(s: string, i: int, t: string)
    requires t != "" && !IsSpace(t[0]) && StandsAfterGap(s, i, t)
    ensures i == SkipSpaces(s, 0)
  {
    assert s[i..i + |t|][0] == s[i];
    forall k | 0 <= k < i ensures IsSpace(s[k]) {
      assert s[k] in s[..i];
    }
    SkipSpacesIs(s, 0, i);
  }

  lemma SkippedIsBlank(s: string)
    ensures Blank(s[..SkipSpaces(s, 0)])
  {}

  lemma DocumentFacts(lang: string -> bool, texts: seq<string>)
    requires SelfDelimiting(lang) && AllIn(lang, texts) && texts != []
    ensures IsDocument(texts[0]) && lang(texts[0]) && AllIn(lang, texts[1..])
  {
    assert texts[0] in texts && lang(texts[0]);
  }

  predicate IsDocument(t: string) {
    t != "" && !IsSpace(t[0]) && !IsSpace(t[|t| - 1])
  }

  /** A stream starts with its first document at the first character that is not white space. */
  lemma StreamUnfolds(s: string, texts: seq<string>)
    requires texts != [] && IsDocument(texts[0])
    ensures IsStream(s, texts) <==>
      var p := SkipSpaces(s, 0);
      HasAt(s, p, texts[0]) && IsStream(s[p + |texts[0]|..], texts[1..])
  {
    hide IsSpace, Blank;
    var t, p := texts[0], SkipSpaces(s, 0);
    SkippedIsBlank(s);
    if i :| StandsAfterGap(s, i, t) && IsStream(s[i + |t|..], texts[1..]) {
      GapIs(s, i, t);
    }
    if HasAt(s, p, t) && IsStream(s[p + |t|..], texts[1..]) {
      assert StandsAfterGap(s, p, t);
    }
  }

  lemma LeadingGap(s: string, texts: seq<string>)
    requires texts != [] ==> IsDocument(texts[0])
    ensures IsStream(s, texts) <==> IsStream(SkipGap(s), texts)
  {
    hide IsSpace, IsDocument, IsStream, Blank;
    if texts == [] {
      BlankAfterGap(s);
    } else {
      var j, rest, n := SkipSpaces(s, 0), SkipGap(s), |texts[0]|;
      StreamUnfolds(s, texts);
      StreamUnfolds(rest, texts);
      SkipSpacesIs(rest, 0, 0);
      if j + n <= |s| {
        assert rest[0..0 + n] == s[j..j + n] && rest[0 + n..] == s[j + n..];
      }
    }
  }

  lemma BlankAfterGap(s: string)
    ensures IsStream(s, []) <==> IsStream(SkipGap(s), [])
  {
    hide IsSpace;
    var j, rest := SkipSpaces(s, 0), SkipGap(s);
    SkippedIsBlank(s);
    assert s == s[..j] + rest;
    assert Blank(s) <==> Blank(rest);
  }

  lemma {:induction false} TrailingGap(lang: string -> bool, s: string, e: nat, texts: seq<string>)
    requires SelfDelimiting(lang) && AllIn(lang, texts)
    requires e <= |s| && Blank(s[e..])
    ensures IsStream(s, texts) <==> IsStream(s[..e], texts)
    decreases |texts|
  {
    hide IsSpace, SelfDelimiting, AllIn;
    var cut := s[..e];
    assert s == cut + s[e..];
    if texts == [] {
      assert Blank(s) <==> Blank(cut);
    } else {
      hide IsStream;
      var t := texts[0];
      DocumentFacts(lang, texts);
      StreamUnfolds(s, texts);
      StreamUnfolds(cut, texts);
      var p := SkipSpaces(s, 0);
      FirstBeforeTail(s, e, t);
      if HasAt(s, p, t) {
        var k := p + |t|;
        assert s[k..][e - k..] == s[e..] && s[k..][..e - k] == cut[k..];
        TrailingGap(lang, s[k..], e - k, texts[1..]);
      }
    }
  }

  /** White space at the end hides no document and adds none. */
  lemma {:induction false} FirstBeforeTail(s: string, e: nat, t: string)
    requires e <= |s| && Blank(s[e..]) && IsDocument(t)
    ensures var p, q := SkipSpaces(s, 0), SkipSpaces(s[..e], 0);
      (HasAt(s, p, t) <==> HasAt(s[..e], q, t)) && (HasAt(s, p, t) ==> p == q && p + |t| <= e)
  {
    var p, q := SkipSpaces(s, 0), SkipSpaces(s[..e], 0);
    if HasAt(s, p, t) {
      FirstStaysInside(s, e, p, t);
    }
    if HasAt(s[..e], q, t) {
      FirstStaysFirst(s, e, q, t);
    }
  }

  lemma {:induction false} FirstStaysInside(s: string, e: nat, p: nat, t: string)
    requires e <= |s| && Blank(s[e..]) && IsDocument(t) && p == SkipSpaces(s, 0) && HasAt(s, p, t)
    ensures p + |t| <= e && SkipSpaces(s[..e], 0) == p && HasAt(s[..e], p, t)
  {
    hide IsSpace;
    var tail, last := s[e..], p + |t| - 1;
    HasAtChar(s, p, t, |t| - 1);
    forall k | e <= k < |s| ensures IsSpace(s[k]) {
      assert tail[k - e] in tail;
    }
    SkipSpacesIs(s[..e], 0, p);
    assert s[..e][p..p + |t|] == s[p..p + |t|];
  }

  /** A document that comes first before a cut comes first without it. */
  lemma {:induction false} FirstStaysFirst(s: string, e: nat, q: nat, t: string)
    requires e <= |s| && IsDocument(t) && q == SkipSpaces(s[..e], 0) && HasAt(s[..e], q, t)
    ensures SkipSpaces(s, 0) == q && HasAt(s, q, t) && !Blank(s)
  {
    hide IsSpace;
    var cut := s[..e];
    HasAtChar(cut, q, t, 0);
    assert forall k :: 0 <= k < |cut| ==> cut[k] == s[k];
    SkipSpacesIs(s, 0, q);
    assert cut[q..q + |t|] == s[q..q + |t|];
    assert s[q] in s;
  }

  lemma {:induction false} StripKeepsStream(lang: string -> bool, s: string, texts: seq<string>)
    requires SelfDelimiting(lang) && AllIn(lang, texts)
    ensures IsStream(s, texts) <==> IsStream(Strip(s), texts)
  {
    hide IsSpace, IsStream, SelfDelimiting, AllIn, Blank, IsDocument;
    var i := SkipSpaces(s, 0);
    var e := TrimEnd(s, i, |s|);
    if texts != [] {
      DocumentFacts(lang, texts);
    }
    LeadingGap(s, texts);
    var rest := s[i..];
    TrimmedIsBlank(s, i, e);
    assert rest[e - i..] == s[e..];
    TrailingGap(lang, rest, e - i, texts);
    assert rest[..e - i] == Strip(s);
  }

  lemma TrimmedIsBlank(s: string, i: nat, e: nat)
    requires i <= |s| && e == TrimEnd(s, i, |s|)
    ensures Blank(s[e..])
  {
    hide IsSpace;
    var tail := s[e..];
    forall c | c in tail ensures IsSpace(c) {
      var k :| 0 <= k < |tail| && tail[k] == c;
      assert s[e + k] == c;
    }
  }

  /** What the scanner takes from the front of a text is the only document that starts there. */
  lemma {:induction false} ScanIs(lang: string -> bool, scan: string -> Option<nat>, s: string, t: string)
    requires PrefixFree(lang) && Scans(lang, scan) && lang(t) && t <= s
    ensures scan(s) == Some(|t|)
  {
    assert s[..|t|] == t && lang(s[..|t|]);
    var u := s[..scan(s).value];
    assert lang(u);
    assert u <= t || t <= u;
  }

  /** The first document is what the scanner takes from the front, or the text is no such stream. */
  lemma {:induction false} FirstDocument(lang: string -> bool, scan: string -> Option<nat>, s: string, texts: seq<string>)
    requires SelfDelimiting(lang) && Scans(lang, scan) && SkipSpaces(s, 0) == 0
    requires texts != [] && AllIn(lang, texts) && IsStream(s, texts)
    ensures scan(s) == Some(|texts[0]|) && texts[0] == s[..|texts[0]|]
  {
    hide IsSpace, IsStream;
    DocumentFacts(lang, texts);
    StreamUnfolds(s, texts);
    ScanIs(lang, scan, s, texts[0]);
  }

  lemma {:induction false} SplitReads(lang: string -> bool, scan: string -> Option<nat>, s: string, texts: seq<string>)
    requires SelfDelimiting(lang) && Scans(lang, scan)
    requires SkipSpaces(s, 0) == 0
    ensures Split(scan, s) == Some(texts) <==> AllIn(lang, texts) && IsStream(s, texts)
    decreases |s|
  {
    hide IsSpace, SelfDelimiting, IsStream;
    if texts == [] {
      NothingToRead(s);
    } else if scan(s).Some? && texts[0] == s[..scan(s).value] {
      var n, more := scan(s).value, texts[1..];
      var rest := s[n..];
      SkipSpacesIs(SkipGap(rest), 0, 0);
      SplitReads(lang, scan, SkipGap(rest), more);
      assert lang(texts[0]);
      assert texts == [texts[0]] + more;
      if AllIn(lang, more) {
        assert AllIn(lang, texts);
        DocumentFacts(lang, texts);
        if more != [] {
          DocumentFacts(lang, more);
        }
        LeadingGap(rest, more);
        StreamUnfolds(s, texts);
        assert s[0 + n..] == rest;
      }
    } else if AllIn(lang, texts) && IsStream(s, texts) {
      FirstDocument(lang, scan, s, texts);
    }
  }

  lemma {:induction false} NothingToRead(s: string)
    requires SkipSpaces(s, 0) == 0
    ensures IsStream(s, []) <==> s == ""
  {
    if s != "" {
      assert s[0] in s;
    }
  }

  /** The reader returns exactly the documents of the text, and an error when it is no such stream. */
  lemma {:induction false} ReadsExactlyThePages(lang: string -> bool, scan: string -> Option<nat>, stdout: string, texts: seq<string>)
    requires SelfDelimiting(lang) && Scans(lang, scan)
    ensures Split(scan, Strip(stdout)) == Some(texts) <==> AllIn(lang, texts) && IsStream(stdout, texts)
  {
    StripHasNoGap(stdout);
    SplitReads(lang, scan, Strip(stdout), texts);
    if AllIn(lang, texts) {
      StripKeepsStream(lang, stdout, texts);
    }
  }

  lemma {:induction false} StripHasNoGap(s: string)
    ensures SkipSpaces(Strip(s), 0) == 0
  {
    var i := SkipSpaces(s, 0);
    SkipSpacesIs(Strip(s), 0, 0);
  }

  /** A stream that was cut off contains a first part of the documents, if it is a stream at all. */
  lemma {:induction false} CutStream(lang: string -> bool, s: string, k: nat, all: seq<string>, some: seq<string>)
    requires SelfDelimiting(lang) && AllIn(lang, all) && AllIn(lang, some)
    requires k <= |s| && IsStream(s, all) && IsStream(s[..k], some)
    ensures some <= all
    decreases |some|
  {
    hide IsSpace, IsStream, AllIn, SelfDelimiting, IsDocument, Blank;
    if some == [] {
    } else {
      var cut, u := s[..k], some[0];
      DocumentFacts(lang, some);
      StreamUnfolds(cut, some);
      var p := SkipSpaces(cut, 0);
      FirstStaysFirst(s, k, p, u);
      StartsNonblank(s, all);
      DocumentFacts(lang, all);
      StreamUnfolds(s, all);
      SameDocument(lang, s, p, u, all[0]);
      var rest, left := s[p + |u|..], k - p - |u|;
      assert p + |u| <= k && cut[p + |u|..] == rest[..left];
      CutStream(lang, rest, left, all[1..], some[1..]);
      assert some == [u] + some[1..] && all == [u] + all[1..];
    }
  }

  lemma {:induction false} SameDocument(lang: string -> bool, s: string, p: nat, t: string, u: string)
    requires SelfDelimiting(lang) && lang(t) && lang(u) && HasAt(s, p, t) && HasAt(s, p, u)
    ensures t == u
  {
    assert t <= s[p..] && u <= s[p..];
    assert u <= t || t <= u;
  }

  lemma {:induction false} StartsNonblank(s: string, texts: seq<string>)
    requires IsStream(s, texts) && !Blank(s)
    ensures texts != []
  {}

  // ---- documents that do not delimit themselves ----

  predicate IsNumber(t: string) {
    t != "" && forall c :: c in t ==> IsDigit(c)
  }

  /** Numbers are no such language: no scanner reads both the pages `1` `2` and the page `12`. */
  lemma {:induction false} NumbersRunTogether(scan: string -> Option<nat>)
    requires Scans(IsNumber, scan)
    ensures IsStream("12", ["1", "2"]) && IsStream("12", ["12"])
    ensures Split(scan, Strip("12")) != Some(["1", "2"]) || Split(scan, Strip("12")) != Some(["12"])
  {
    assert "12"[0..1] == "1" && StandsAfterGap("12", 0, "1") && "12"[0 + |"1"|..] == "2";
    assert StandsAfterGap("2", 0, "2") && "2"[0 + |"2"|..] == "";
    assert IsStream("2", ["2"]) by { assert ["2"][1..] == [] && IsStream("", []); }
    assert ["1", "2"][1..] == ["2"];
    assert StandsAfterGap("12", 0, "12") && "12"[0 + |"12"|..] == "" && ["12"][1..] == [];
  }
}
