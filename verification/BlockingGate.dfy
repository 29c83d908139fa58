/** The gate over open blocking points: checkboxes of the body, BLOCKING comments, near misses. */
module BlockingGate {
  import opened Wrappers
  import opened Text
  import opened Whitespace
  import opened Markers

  const RED_CIRCLE := '\U{1F534}'

  // ---- checkbox lines of the body ----

  predicate IsTabOrSpace(c: char) {
    c == ' ' || c == '\t'
  }

  function SkipTabs(s: string, i: nat): (j: nat)
    requires i <= |s|
    ensures i <= j <= |s|
    decreases |s| - i
  {
    if i < |s| && IsTabOrSpace(s[i]) then SkipTabs(s, i + 1) else i
  }

  /** `(?:\*\*[ \t]*)*` at `i`. */
  function SkipStars(s: string, i: nat): (j: nat)
    requires i <= |s|
    ensures i <= j <= |s|
    decreases |s| - i
  {
    if HasAt(s, i, "**") then SkipStars(s, SkipTabs(s, i + 2)) else i
  }

  /**
    What follows the red circle of a checkbox line: `_OPEN_BLOCK` when `open`, else `_CHECKED_BLOCK`.
    Both patterns are matched line by line.
   */
  function BoxText(line: string, open: bool): Option<string> {
    var i := SkipTabs(line, 0);
    if i == |line| || line[i] !in "-*+" then None
    else
      var b := SkipTabs(line, i + 1);
      if b == |line| || line[b] != '[' then None
      else
        var c := if open then SkipTabs(line, b + 1)
                 else if b + 1 < |line| && line[b + 1] in "xX" then b + 2 else |line|;
        if c == |line| || line[c] != ']' then None
        else
          var r := SkipStars(line, SkipTabs(line, c + 1));
          if r == |line| || line[r] != RED_CIRCLE then None else Some(line[r + 1..])
  }

  predicate HasOpenBox(body: string) {
    exists line :: line in SplitLines(body) && BoxText(line, true).Some?
  }

  function CheckedIn(lines: seq<string>): (r: seq<string>)
    ensures forall t :: t in r ==> t != ""
  {
    if lines == [] then []
    else
      var text := BoxText(lines[0], false);
      (if text.Some? && Normalize(text.value) != "" then [Normalize(text.value)] else []) + CheckedIn(lines[1..])
  }

  /** `_checked_lines`. */
  function CheckedLines(body: string): seq<string> {
    CheckedIn(SplitLines(body))
  }

  // ---- what clears a point ----

  /** `_identifying_line`: the first non-empty line after the comment's first physical line. */
  function IdentifyingLine(comment: string): string {
    FirstNonBlank(SplitLines(comment)[1..])
  }

  /** One of the two names is a prefix of the other. */
  predicate PrefixCompatible(a: string, b: string) {
    a <= b || b <= a
  }

  /** The comment opens with BLOCKING-CLEARED for `head` and quotes `text`, white space aside. */
  predicate ClearsPoint(comment: string, text: string, head: string) {
    var sha := Clears(comment);
    sha.Some? && head != "" && PrefixCompatible(head, sha.value) && Contains(Normalize(comment), Normalize(text))
  }

  predicate IsCleared(text: string, candidates: seq<string>, head: string) {
    text != "" && exists c :: c in candidates && ClearsPoint(c, text, head)
  }

  /** `_cleared_after`. */
  method ClearedAfter(text: string, candidates: seq<string>, head: string) returns (cleared: bool)
    ensures cleared <==> IsCleared(text, candidates, head)
  {
    if text == "" {
      return false;
    }
    for i := 0 to |candidates|
      invariant forall c :: c in candidates[..i] ==> !ClearsPoint(c, text, head)
    {
      var candidate := candidates[i];
      assert candidate in candidates && candidates[..i + 1] == candidates[..i] + [candidate];
      var sha := Clears(candidate);
      if sha.None? {
        continue;
      }
      if !(head != "" && (sha.value <= head || head <= sha.value)) {
        continue;
      }
      if Contains(Normalize(candidate), Normalize(text)) {
        return true;
      }
    }
    assert candidates[..|candidates|] == candidates;
    return false;
  }

  // ---- the verdict ----

  datatype Finding =
    | OpenBox
    | Uncorroborated(text: string)
    | Uncleared(text: string)
    | NearMissed(comment: string)

  function CheckedFindings(texts: seq<string>, comments: seq<string>, head: string): seq<Finding> {
    if texts == [] then []
    else
      var n := |texts| - 1;
      CheckedFindings(texts[..n], comments, head)
      + (if IsCleared(texts[n], comments, head) then [] else [Uncorroborated(texts[n])])
  }

  /** The comment at the head of the list raises a point that the rest of the list does not clear. */
  predicate UnclearedAt(comments: seq<string>, i: nat, head: string)
    requires i < |comments|
  {
    Raises(comments[i]).Some? && !IsCleared(IdentifyingLine(comments[i]), comments[i + 1..], head)
  }

  function BlockingFindings(comments: seq<string>, n: nat, head: string): seq<Finding>
    requires n <= |comments|
  {
    if n == 0 then []
    else BlockingFindings(comments, n - 1, head)
         + (if UnclearedAt(comments, n - 1, head) then [Uncleared(IdentifyingLine(comments[n - 1]))] else [])
  }

  function NearMissFindings(comments: seq<string>): seq<Finding> {
    if comments == [] then []
    else
      var n := |comments| - 1;
      NearMissFindings(comments[..n]) + (if NearMiss(comments[n]) then [NearMissed(comments[n])] else [])
  }

  function Findings(body: string, comments: seq<string>, head: string): seq<Finding> {
    (if HasOpenBox(body) then [OpenBox] else [])
    + CheckedFindings(CheckedLines(body), comments, head)
    + BlockingFindings(comments, |comments|, head)
    + NearMissFindings(comments)
  }

  /** Comments whose body is a string; the source drops the others. */
  function TextComments(comments: seq<Option<string>>): seq<string> {
    if comments == [] then []
    else
      var n := |comments| - 1;
      TextComments(comments[..n]) + (if comments[n].Some? then [comments[n].value] else [])
  }

  /** The list comprehension over the comments. */
  method KeepText(comments: seq<Option<string>>) returns (texts: seq<string>)
    ensures texts == TextComments(comments)
  {
    texts := [];
    for i := 0 to |comments|
      invariant texts == TextComments(comments[..i])
    {
      assert comments[..i + 1][..i] == comments[..i];
      if comments[i].Some? {
        texts := texts + [comments[i].value];
      }
    }
    assert comments[..|comments|] == comments;
  }

  method AddUncorroborated(before: seq<Finding>, checked: seq<string>, texts: seq<string>, head: string)
    returns (findings: seq<Finding>)
    ensures findings == before + CheckedFindings(checked, texts, head)
  {
    hide IsCleared;
    findings := before;
    for i := 0 to |checked|
      invariant findings == before + CheckedFindings(checked[..i], texts, head)
    {
      assert checked[..i + 1][..i] == checked[..i];
      var cleared := ClearedAfter(checked[i], texts, head);
      if !cleared {
        findings := findings + [Uncorroborated(checked[i])];
      }
    }
    assert checked[..|checked|] == checked;
  }

  method AddUncleared(before: seq<Finding>, texts: seq<string>, head: string) returns (findings: seq<Finding>)
    ensures findings == before + BlockingFindings(texts, |texts|, head)
  {
    hide IsCleared, Raises, IdentifyingLine;
    findings := before;
    for i := 0 to |texts|
      invariant findings == before + BlockingFindings(texts, i, head)
    {
      if Raises(texts[i]).Some? {
        var identifying := IdentifyingLine(texts[i]);
        var cleared := ClearedAfter(identifying, texts[i + 1..], head);
        if !cleared {
          findings := findings + [Uncleared(identifying)];
        }
      }
    }
  }

  method AddNearMissed(before: seq<Finding>, texts: seq<string>) returns (findings: seq<Finding>)
    ensures findings == before + NearMissFindings(texts)
  {
    hide NearMiss;
    findings := before;
    for i := 0 to |texts|
      invariant findings == before + NearMissFindings(texts[..i])
    {
      assert texts[..i + 1][..i] == texts[..i];
      if NearMiss(texts[i]) {
        findings := findings + [NearMissed(texts[i])];
      }
    }
    assert texts[..|texts|] == texts;
  }

  /** `evaluate`: exit code 2 when the body is missing, else 1 with findings or 0 without. */
  method Evaluate(body: Option<string>, comments: seq<Option<string>>, head: string)
    returns (code: nat, findings: seq<Finding>)
    ensures body.None? ==> code == 2
    ensures body.Some? ==> findings == Findings(body.value, TextComments(comments), head)
    ensures body.Some? ==> code == if findings == [] then 0 else 1
  {
    hide HasOpenBox, CheckedLines, CheckedFindings, BlockingFindings, NearMissFindings, TextComments;
    if body.None? {
      return 2, [];
    }
    var texts := KeepText(comments);
    findings := if HasOpenBox(body.value) then [OpenBox] else [];
    findings := AddUncorroborated(findings, CheckedLines(body.value), texts, head);
    findings := AddUncleared(findings, texts, head);
    findings := AddNearMissed(findings, texts);
    code := if findings == [] then 0 else 1;
  }

  // ---- green ----

  predicate Green(body: string, comments: seq<string>, head: string) {
    Findings(body, comments, head) == []
  }

  lemma {:induction false} NoCheckedFindings(texts: seq<string>, comments: seq<string>, head: string)
    ensures CheckedFindings(texts, comments, head) == [] <==> forall t :: t in texts ==> IsCleared(t, comments, head)
  {
    hide IsCleared;
    if texts == [] {
    } else {
      var n := |texts| - 1;
      NoCheckedFindings(texts[..n], comments, head);
      assert texts == texts[..n] + [texts[n]];
    }
  }

  lemma {:induction false} NoBlockingFindings(comments: seq<string>, n: nat, head: string)
    requires n <= |comments|
    ensures BlockingFindings(comments, n, head) == [] <==> forall i :: 0 <= i < n ==> !UnclearedAt(comments, i, head)
  {
    hide UnclearedAt;
    if n == 0 {
    } else {
      NoBlockingFindings(comments, n - 1, head);
    }
  }

  lemma {:induction false} NoNearMissFindings(comments: seq<string>)
    ensures NearMissFindings(comments) == [] <==> forall c :: c in comments ==> !NearMiss(c)
  {
    hide NearMiss;
    if comments == [] {
    } else {
      var n := |comments| - 1;
      NoNearMissFindings(comments[..n]);
      assert comments == comments[..n] + [comments[n]];
    }
  }

  /** The gate is green exactly when none of its three conditions is met. */
  lemma {:induction false} GreenMeans(body: string, comments: seq<string>, head: string)
    ensures Green(body, comments, head) <==>
      !HasOpenBox(body)
      && (forall t :: t in CheckedLines(body) ==> IsCleared(t, comments, head))
      && (forall i :: 0 <= i < |comments| ==> !UnclearedAt(comments, i, head))
      && (forall c :: c in comments ==> !NearMiss(c))
  {
    hide HasOpenBox, CheckedLines, IsCleared, UnclearedAt, NearMiss;
    NoCheckedFindings(CheckedLines(body), comments, head);
    NoBlockingFindings(comments, |comments|, head);
    NoNearMissFindings(comments);
  }
}
