/** The open-blocking gate over whole histories of a pull request. */
module BlockingRuns {
  import opened Wrappers
  import opened Text
  import opened Whitespace
  import opened Markers
  import opened MarkerLaws
  import opened BlockingGate
  import opened BlockingBoxes

  // ---- histories ----

  datatype PullRequest = PullRequest(body: string, comments: seq<string>, head: string)

  datatype Event =
    | Post(comment: string)
    | Push(oid: string)
    | EditBody(text: string)
    | Delete(index: nat)

  function WithoutComment(comments: seq<string>, k: nat): seq<string>
    requires k < |comments|
  {
    comments[..k] + comments[k + 1..]
  }

  function Apply(pr: PullRequest, e: Event): PullRequest {
    match e
    case Post(c) => pr.(comments := pr.comments + [c])
    case Push(oid) => pr.(head := oid)
    case EditBody(text) => pr.(body := text)
    case Delete(k) => if k < |pr.comments| then pr.(comments := WithoutComment(pr.comments, k)) else pr
  }

  function After(pr: PullRequest, events: seq<Event>): PullRequest
    decreases |events|
  {
    if events == [] then pr else After(Apply(pr, events[0]), events[1..])
  }

  predicate IsGreen(pr: PullRequest) {
    Green(pr.body, pr.comments, pr.head)
  }

  /** No comment is deleted in the history. */
  predicate KeepsComments(events: seq<Event>) {
    forall e :: e in events ==> !e.Delete?
  }

  lemma {:induction false} CommentsStay(pr: PullRequest, events: seq<Event>)
    requires KeepsComments(events)
    ensures pr.comments <= After(pr, events).comments
    decreases |events|
  {
    if events == [] {
    } else {
      assert events[0] in events;
      var next := Apply(pr, events[0]);
      assert pr.comments <= next.comments;
      CommentsStay(next, events[1..]);
    }
  }

  // ---- a raised point stays until it is cleared ----

  /**
    Once a BLOCKING comment is posted, every later state is red until a comment posted after it
    clears its point for that state's own head; pushes and body edits make no difference.
   */
  lemma {:induction false} RaisedPointHolds(pr: PullRequest, events: seq<Event>, i: nat)
    requires KeepsComments(events) && i < |pr.comments| && Raises(pr.comments[i]).Some?
    ensures i < |After(pr, events).comments| && After(pr, events).comments[i] == pr.comments[i]
    ensures var now := After(pr, events); IsGreen(now) ==> ClearedBehind(now.comments, i, now.head)
  {
    hide Green, Raises, UnclearedAt, ClearedBehind;
    CommentsStay(pr, events);
    var now := After(pr, events);
    GreenMeans(now.body, now.comments, now.head);
    UnclearedIff(now.comments, i, now.head);
    assert IsGreen(now) ==> !UnclearedAt(now.comments, i, now.head);
  }

  /** A push to a head that no posted clearing names makes the gate red again while any point was ever raised. */
  lemma {:induction false} PushReopens(pr: PullRequest, i: nat, oid: string)
    requires i < |pr.comments| && Raises(pr.comments[i]).Some?
    requires forall c :: c in pr.comments && Clears(c).Some? ==> !PrefixCompatible(oid, Clears(c).value)
    ensures !IsGreen(Apply(pr, Push(oid)))
  {
    var next := Apply(pr, Push(oid));
    RaisedPointHolds(pr, [Push(oid)], i);
    assert After(pr, [Push(oid)]) == next;
  }

  /** A BLOCKING comment with nothing after its first line can never be cleared. */
  lemma {:induction false} EmptyPointIsPermanent(pr: PullRequest, events: seq<Event>, i: nat)
    requires KeepsComments(events) && i < |pr.comments| && Raises(pr.comments[i]).Some?
    requires IdentifyingLine(pr.comments[i]) == ""
    ensures !IsGreen(After(pr, events))
  {
    RaisedPointHolds(pr, events, i);
  }

  /** A near miss stays red whatever is posted after it. */
  lemma {:induction false} NearMissIsPermanent(pr: PullRequest, events: seq<Event>, i: nat)
    requires KeepsComments(events) && i < |pr.comments| && NearMiss(pr.comments[i])
    ensures !IsGreen(After(pr, events))
  {
    hide Green, NearMiss;
    CommentsStay(pr, events);
    var now := After(pr, events);
    GreenMeans(now.body, now.comments, now.head);
    assert now.comments[i] in now.comments;
  }

  // ---- deletion ----

  lemma MoreCandidates(text: string, some: seq<string>, all: seq<string>, head: string)
    requires forall c :: c in some ==> c in all
    ensures IsCleared(text, some, head) ==> IsCleared(text, all, head)
  {
  }

  /** The place in `WithoutComment(comments, k)` of the comment with index `i`. */
  function NewIndex(i: nat, k: nat): nat
    requires i != k
  {
    if i < k then i else i - 1
  }

  lemma {:induction false} UnclearedStays(comments: seq<string>, k: nat, i: nat, head: string)
    requires k < |comments| && i < |comments| && i != k && UnclearedAt(comments, i, head)
    ensures UnclearedAt(WithoutComment(comments, k), NewIndex(i, k), head)
  {
    hide Raises, IsCleared, IdentifyingLine;
    var fewer, m := WithoutComment(comments, k), NewIndex(i, k);
    assert fewer[m] == comments[i];
    var fewerLater, later := fewer[m + 1..], comments[i + 1..];
    forall c | c in fewerLater ensures c in later {
      var x :| 0 <= x < |fewerLater| && fewerLater[x] == c;
      assert fewer[m + 1 + x] == c;
      var y := if m + 1 + x < k then m + 1 + x else m + 2 + x;
      assert later[y - i - 1] == comments[y] == c;
    }
    MoreCandidates(IdentifyingLine(comments[i]), fewerLater, later, head);
  }

  /** With body and head fixed, only removing a BLOCKING comment or a near miss can turn the gate green. */
  lemma {:induction false} DeletionIsPunished(pr: PullRequest, k: nat)
    requires k < |pr.comments|
    requires !IsGreen(pr) && IsGreen(Apply(pr, Delete(k)))
    ensures Raises(pr.comments[k]).Some? || NearMiss(pr.comments[k])
  {
    hide Green, Raises, NearMiss, UnclearedAt, HasOpenBox, CheckedLines, IsCleared;
    var fewer := WithoutComment(pr.comments, k);
    GreenMeans(pr.body, pr.comments, pr.head);
    GreenMeans(pr.body, fewer, pr.head);
    assert forall c :: c in fewer ==> c in pr.comments;
    if exists t :: t in CheckedLines(pr.body) && !IsCleared(t, pr.comments, pr.head) {
      var t :| t in CheckedLines(pr.body) && !IsCleared(t, pr.comments, pr.head);
      MoreCandidates(t, fewer, pr.comments, pr.head);
      assert false;
    } else if exists i :: 0 <= i < |pr.comments| && UnclearedAt(pr.comments, i, pr.head) {
      var i :| 0 <= i < |pr.comments| && UnclearedAt(pr.comments, i, pr.head);
      if i == k {
        UnclearedRaises(pr.comments, i, pr.head);
      } else {
        UnclearedStays(pr.comments, k, i, pr.head);
      }
    } else {
      OthersRemain(pr.comments, k);
    }
  }

  lemma OthersRemain(comments: seq<string>, k: nat)
    requires k < |comments|
    ensures forall c :: c in comments ==> c == comments[k] || c in WithoutComment(comments, k)
  {
    forall x | 0 <= x < |comments| && x != k ensures comments[x] in WithoutComment(comments, k) {
      assert WithoutComment(comments, k)[NewIndex(x, k)] == comments[x];
    }
  }

  lemma {:induction false} UnclearedRaises(comments: seq<string>, i: nat, head: string)
    requires i < |comments| && UnclearedAt(comments, i, head)
    ensures Raises(comments[i]).Some?
  {
  }

  /** Removing a clearing comment never turns the gate green. */
  lemma {:induction false} DeletingAClearingNeverHelps(pr: PullRequest, k: nat)
    requires k < |pr.comments| && Clears(pr.comments[k]).Some? && !IsGreen(pr)
    ensures !IsGreen(Apply(pr, Delete(k)))
  {
    hide IsGreen, Raises, Clears;
    Trichotomy(pr.comments[k]);
    if IsGreen(Apply(pr, Delete(k))) {
      DeletionIsPunished(pr, k);
    }
  }

  /** Deleting the comment posted last undoes the post. */
  lemma DeleteUndoesPost(pr: PullRequest, c: string)
    ensures After(pr, [Post(c), Delete(|pr.comments|)]) == pr
  {
    var posted := Apply(pr, Post(c));
    assert WithoutComment(posted.comments, |pr.comments|) == pr.comments;
    var delete := [Delete(|pr.comments|)];
    assert ([Post(c)] + delete)[1..] == delete;
    assert [Post(c)] + delete == [Post(c), Delete(|pr.comments|)];
    assert After(posted, delete) == After(Apply(posted, delete[0]), []);
  }

  /** Hence a post makes a green gate red only by raising a point or by a near miss. */
  lemma {:induction false} PostKeepsGreen(pr: PullRequest, c: string)
    requires IsGreen(pr) && Raises(c).None? && !NearMiss(c)
    ensures IsGreen(Apply(pr, Post(c)))
  {
    hide IsGreen, Raises, NearMiss;
    var posted := Apply(pr, Post(c));
    DeleteUndoesPost(pr, c);
    assert Apply(posted, Delete(|pr.comments|)) == pr by {
      assert WithoutComment(posted.comments, |pr.comments|) == pr.comments;
    }
    if !IsGreen(posted) {
      DeletionIsPunished(posted, |pr.comments|);
    }
  }

  // ---- repair ----

  /** The identifying lines of all BLOCKING comments. */
  function RaisedLines(comments: seq<string>): seq<string> {
    if comments == [] then []
    else (if Raises(comments[0]).Some? then [IdentifyingLine(comments[0])] else []) + RaisedLines(comments[1..])
  }

  lemma {:induction false} RaisedLinesAre(comments: seq<string>, l: string)
    ensures l in RaisedLines(comments) <==> exists c :: c in comments && Raises(c).Some? && l == IdentifyingLine(c)
  {
    hide Raises, IdentifyingLine;
    if comments == [] {
    } else {
      RaisedLinesAre(comments[1..], l);
      assert forall c :: c in comments <==> c == comments[0] || c in comments[1..];
    }
  }

  function ClearingHeader(sha: string): string {
    "BLOCKING-CLEARED (head " + sha + ")"
  }

  /** One clearing comment that quotes every identifying line and every checked line. */
  function RepairComment(pr: PullRequest, sha: string): string {
    JoinLines([ClearingHeader(sha)] + RaisedLines(pr.comments) + CheckedLines(pr.body))
  }

  predicate IsSha(sha: string) {
    7 <= |sha| <= 40 && forall c :: c in sha ==> IsHex(c)
  }

  lemma HexIsPlain(c: char)
    requires IsHex(c)
    ensures !IsSpace(c) && !IsDecoration(c) && c != '\n' && c != ')'
  {
  }

  lemma HeaderShape(sha: string)
    ensures var h := ClearingHeader(sha);
            HasAt(h, 0, CLEARED) && h[16] == ' ' && HasAt(h, 17, "(") && HasAt(h, 18, "head") && h[22] == ' '
            && |h| == 24 + |sha| && HasAt(h, 23, sha) && HasAt(h, 23 + |sha|, ")")
  {
    var h := ClearingHeader(sha);
    assert h[0..16] == CLEARED;
    assert h[17..18] == "(" && h[18..22] == "head";
    assert h[23..23 + |sha|] == sha && h[23 + |sha|..24 + |sha|] == ")";
  }

  /** The header is read as a clearing of `sha`. */
  lemma HeaderIsRead(sha: string)
    requires IsSha(sha)
    ensures HeadMarkerAt(ClearingHeader(sha), 0, CLEARED) == Some(sha)
  {
    hide SkipSpaces, HexEnd, ClearingHeader;
    var h := ClearingHeader(sha);
    HeaderShape(sha);
    HasAtChar(h, 17, "(", 0);
    HasAtChar(h, 18, "head", 0);
    HasAtChar(h, 23 + |sha|, ")", 0);
    forall k | 23 <= k < 23 + |sha| ensures IsHex(h[k]) && !IsSpace(h[k]) {
      HasAtChar(h, 23, sha, k - 23);
      assert sha[k - 23] in sha;
      HexIsPlain(h[k]);
    }
    SkipSpacesIs(h, 16, 17);
    SkipSpacesIs(h, 18, 18);
    SkipSpacesIs(h, 22, 23);
    HexEndIs(h, 23, 23 + |sha|);
    SkipSpacesIs(h, 23 + |sha|, 23 + |sha|);
  }

  predicate CleanChar(c: char) {
    !IsDecoration(c) && c != '\n'
  }

  lemma LiteralIsClean()
    ensures forall c :: c in "BLOCKING-CLEARED (head " || c in ")" ==> CleanChar(c)
  {
    var literal := "BLOCKING-CLEARED (head ";
    assert forall k :: 0 <= k < |literal| ==> CleanChar(literal[k]);
  }

  lemma ShaIsClean(sha: string)
    requires IsSha(sha)
    ensures forall c :: c in sha ==> CleanChar(c)
  {
    forall c | c in sha ensures CleanChar(c) {
      HexIsPlain(c);
    }
  }

  lemma HeaderIsClean(sha: string)
    requires IsSha(sha)
    ensures forall c :: c in ClearingHeader(sha) ==> CleanChar(c)
    ensures Strip(ClearingHeader(sha)) == ClearingHeader(sha)
  {
    hide Strip, CleanChar, IsSha;
    var h := ClearingHeader(sha);
    LiteralIsClean();
    ShaIsClean(sha);
    forall c | c in h ensures CleanChar(c) {
      assert c in "BLOCKING-CLEARED (head " || c in sha || c in ")";
    }
    assert h[0] == 'B' && h[|h| - 1] == ')';
    assert "" + h + "" == h;
    StripMiddle("", h, "");
  }

  /** A comment whose first line is the header clears for `sha` and is no near miss and raises nothing. */
  lemma {:induction false} HeaderClears(comment: string, sha: string)
    requires IsSha(sha) && SplitLines(comment)[0] == ClearingHeader(sha)
    ensures Clears(comment) == Some(sha)
  {
    hide ClearingHeader, HeadMarkerAt, RolePrefixEnd, Strip;
    var h := ClearingHeader(sha);
    HeaderIsClean(sha);
    HeaderShape(sha);
    HeaderIsRead(sha);
    assert FirstNonemptyLine(comment) == h;
    NoRolePrefix(h);
    UndecoratedFixed(h);
    assert h[..0] + Undecorated(h[0..]) == h;
  }

  lemma {:induction false} SplitHasNoBreak(s: string)
    ensures forall l :: l in SplitLines(s) ==> '\n' !in l
    decreases |s|
  {
    var j := LineEnd(s, 0);
    if j == |s| {
    } else {
      SplitHasNoBreak(s[j + 1..]);
    }
  }

  lemma {:induction false} FirstNonBlankHasNoBreak(lines: seq<string>)
    requires forall l :: l in lines ==> '\n' !in l
    ensures '\n' !in FirstNonBlank(lines)
  {
    if lines == [] {
    } else {
      assert lines[0] in lines;
      FirstNonBlankHasNoBreak(lines[1..]);
    }
  }

  lemma IdentifyingHasNoBreak(comment: string)
    ensures '\n' !in IdentifyingLine(comment)
  {
    SplitHasNoBreak(comment);
    FirstNonBlankHasNoBreak(SplitLines(comment)[1..]);
  }

  lemma {:induction false} CollapseHasNoBreak(s: string)
    ensures '\n' !in Collapse(s)
    decreases |s|
  {
    if s == "" {
    } else {
      if IsSpace(s[0]) {
        CollapseHasNoBreak(s[SkipSpaces(s, 0)..]);
      } else {
        CollapseHasNoBreak(s[1..]);
      }
    }
  }

  lemma {:induction false} CheckedHaveNoBreak(lines: seq<string>)
    ensures forall t :: t in CheckedIn(lines) ==> '\n' !in t
  {
    hide BoxText;
    if lines == [] {
    } else {
      CheckedHaveNoBreak(lines[1..]);
      var text := BoxText(lines[0], false);
      if text.Some? { CollapseHasNoBreak(text.value); }
    }
  }

  lemma RepairLines(pr: PullRequest, sha: string)
    requires IsSha(sha)
    ensures SplitLines(RepairComment(pr, sha)) == [ClearingHeader(sha)] + RaisedLines(pr.comments) + CheckedLines(pr.body)
  {
    hide ClearingHeader, IdentifyingLine, CheckedIn, Raises;
    var lines := [ClearingHeader(sha)] + RaisedLines(pr.comments) + CheckedLines(pr.body);
    HeaderIsClean(sha);
    CheckedHaveNoBreak(SplitLines(pr.body));
    forall l | l in lines ensures '\n' !in l {
      RaisedLinesAre(pr.comments, l);
      if l in RaisedLines(pr.comments) {
        var c :| c in pr.comments && l == IdentifyingLine(c);
        IdentifyingHasNoBreak(c);
      }
    }
    SplitJoin(lines);
  }

  lemma {:induction false} RepairQuotes(pr: PullRequest, sha: string, text: string)
    requires IsSha(sha) && pr.head != "" && PrefixCompatible(pr.head, sha)
    requires text in RaisedLines(pr.comments) || text in CheckedLines(pr.body)
    ensures ClearsPoint(RepairComment(pr, sha), text, pr.head)
  {
    hide ClearingHeader, CheckedLines, RaisedLines, Clears, Contains, Normalize, RepairComment;
    var comment := RepairComment(pr, sha);
    RepairLines(pr, sha);
    HeaderClears(comment, sha);
    var lines := SplitLines(comment);
    assert text in lines;
    var i :| 0 <= i < |lines| && lines[i] == text;
    QuotedLine(comment, i);
  }

  /**
    Without an open checkbox, a near miss or an empty point, one comment that clears for the current
    head and quotes every point makes the gate green, whatever the history was.
   */
  lemma {:induction false} OneCommentRepairs(pr: PullRequest, sha: string)
    requires !ShowsOpenBox(pr.body)
    requires forall c :: c in pr.comments ==> !NearMiss(c)
    requires forall c :: c in pr.comments && Raises(c).Some? ==> IdentifyingLine(c) != ""
    requires IsSha(sha) && pr.head != "" && PrefixCompatible(pr.head, sha)
    ensures IsGreen(Apply(pr, Post(RepairComment(pr, sha))))
  {
    hide Green, ShowsOpenBox, ShowsTickedBox, CheckedLines, NearMiss, Raises, IdentifyingLine, ClearsPoint, RepairComment;
    hide Clears, RaisedLines, IsSha, SplitLines, ClearedBehind, PrefixCompatible, ClearingHeader;
    var comment := RepairComment(pr, sha);
    var all := pr.comments + [comment];
    GreenIff(pr.body, all, pr.head);
    RepairIsClearing(pr, sha);
    forall text | ShowsTickedBox(pr.body, text) ensures exists c :: c in all && ClearsPoint(c, text, pr.head) {
      TickedBoxIff(pr.body, text);
      RepairQuotes(pr, sha, text);
      assert comment in all;
    }
    forall i | 0 <= i < |all| && Raises(all[i]).Some? ensures ClearedBehind(all, i, pr.head) {
      assert i < |pr.comments| && all[i] == pr.comments[i] && pr.comments[i] in pr.comments;
      RaisedLinesAre(pr.comments, IdentifyingLine(all[i]));
      RepairQuotes(pr, sha, IdentifyingLine(all[i]));
      LastClears(all, i, pr.head);
    }
  }

  /** The repair comment raises nothing and is no near miss. */
  lemma RepairIsClearing(pr: PullRequest, sha: string)
    requires IsSha(sha)
    ensures var comment := RepairComment(pr, sha); Raises(comment).None? && !NearMiss(comment)
  {
    hide Raises, NearMiss, NamesMarker, RepairComment, SplitLines, ClearingHeader, Clears;
    var comment := RepairComment(pr, sha);
    RepairLines(pr, sha);
    HeaderClears(comment, sha);
    Trichotomy(comment);
  }

  lemma LastClears(all: seq<string>, i: nat, head: string)
    requires i + 1 < |all| && IdentifyingLine(all[i]) != "" && ClearsPoint(all[|all| - 1], IdentifyingLine(all[i]), head)
    ensures ClearedBehind(all, i, head)
  {
    hide ClearsPoint, IdentifyingLine;
  }

  // ---- which line identifies a point ----

  /** The line after the marker's own line: the unit that the gate's documentation names. */
  function LineAfterMarker(lines: seq<string>): string {
    if lines == [] then ""
    else if Strip(lines[0]) != "" then FirstNonBlank(lines[1..])
    else LineAfterMarker(lines[1..])
  }

  /**
    The code skips the first physical line instead of the marker's line. The two agree when the
    comment begins with its marker; after a leading blank line the marker identifies the point itself.
   */
  lemma IdentifyingLineIs(comment: string)
    ensures var lines := SplitLines(comment);
            if Strip(lines[0]) != "" then IdentifyingLine(comment) == LineAfterMarker(lines)
            else IdentifyingLine(comment) == FirstNonemptyLine(comment)
  {
  }
}
