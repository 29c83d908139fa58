/** The two gates that ask for a note naming the current head: TESTS-READ and re-read. */
module NoteGates {
  import opened Text
  import opened Markers
  import opened MarkerLaws
  import opened BlockingGate

  // ---- SHA-shaped tokens ----

  /** `_SHA.findall` from offset `i` on: the maximal runs of 7 to 40 hexadecimal digits. */
  function ShaTokens(s: string, i: nat): (r: seq<string>)
    requires i <= |s|
    decreases |s| - i
  {
    if i == |s| then []
    else if !IsHex(s[i]) then ShaTokens(s, i + 1)
    else
      var j := HexEnd(s, i);
      (if 7 <= j - i <= 40 then [s[i..j]] else []) + ShaTokens(s, j)
  }

  /** `t` is the whole of a run of hexadecimal digits of `s`. */
  ghost predicate IsShaToken(s: string, from: nat, t: string) {
    exists i: nat, j: nat :: from <= i && ShaRun(s, i, j) && s[i..j] == t
  }

  predicate ShaRun(s: string, i: nat, j: nat) {
    i < j <= |s| && 7 <= j - i <= 40 && (forall k :: i <= k < j ==> IsHex(s[k]))
    && (i > 0 ==> !IsHex(s[i - 1])) && (j < |s| ==> !IsHex(s[j]))
  }

  /** The scan finds exactly the bounded runs, none of them cut short by a neighbour. */
  lemma {:induction false} TokensAreRuns(s: string, from: nat, t: string)
    requires from <= |s| && (from > 0 ==> !IsHex(s[from - 1]) || from == |s| || !IsHex(s[from]))
    ensures t in ShaTokens(s, from) <==> IsShaToken(s, from, t)
    decreases |s| - from
  {
    if from == |s| {
    } else if !IsHex(s[from]) {
      TokensAreRuns(s, from + 1, t);
      SkipOther(s, from, t);
    } else {
      var j := HexEnd(s, from);
      TokensAreRuns(s, j, t);
      SkipRun(s, from, j, t);
    }
  }

  lemma SkipOther(s: string, from: nat, t: string)
    requires from < |s| && !IsHex(s[from])
    ensures IsShaToken(s, from, t) <==> IsShaToken(s, from + 1, t)
  {
    if IsShaToken(s, from, t) {
      var i: nat, j: nat :| from <= i && ShaRun(s, i, j) && s[i..j] == t;
      assert i != from;
    }
  }

  lemma SkipRun(s: string, from: nat, j: nat, t: string)
    requires from < j <= |s| && j == HexEnd(s, from) && (from > 0 ==> !IsHex(s[from - 1]))
    ensures IsShaToken(s, from, t) <==> (7 <= j - from <= 40 && t == s[from..j]) || IsShaToken(s, j, t)
  {
    if IsShaToken(s, from, t) {
      var a: nat, b: nat :| from <= a && ShaRun(s, a, b) && s[a..b] == t;
      if a < j {
        assert a == from;
        assert b == j;
      }
    }
    if 7 <= j - from <= 40 && t == s[from..j] {
      assert ShaRun(s, from, j);
    }
  }

  // ---- notes ----

  const FALSE_FRIENDS: set<string> := {"decade", "defaced", "faceted", "acceded", "effaced", "deface", "efface"}

  function LowerHex(s: string): string {
    if s == "" then "" else [Fold(s[0])] + LowerHex(s[1..])
  }

  /** The token is a commit of the pull request, by prefix. */
  predicate NamesCommit(token: string, oids: seq<string>) {
    LowerHex(token) !in FALSE_FRIENDS && exists oid :: oid in oids && oid != "" && PrefixCompatible(oid, token)
  }

  function KeepCommits(tokens: seq<string>, oids: seq<string>): (r: seq<string>)
    ensures forall t :: t in r <==> t in tokens && NamesCommit(t, oids)
  {
    if tokens == [] then []
    else (if NamesCommit(tokens[0], oids) then [tokens[0]] else []) + KeepCommits(tokens[1..], oids)
  }

  function NoteShas(line: string, oids: seq<string>): seq<string> {
    KeepCommits(ShaTokens(line, 0), oids)
  }

  lemma {:induction false} KeepAppend(tokens: seq<string>, t: string, oids: seq<string>)
    ensures KeepCommits(tokens + [t], oids) == KeepCommits(tokens, oids) + (if NamesCommit(t, oids) then [t] else [])
  {
    hide NamesCommit;
    if tokens == [] {
      assert tokens + [t] == [t] && [t][1..] == [];
    } else {
      assert (tokens + [t])[0] == tokens[0] && (tokens + [t])[1..] == tokens[1..] + [t];
      KeepAppend(tokens[1..], t, oids);
    }
  }

  /** `find_note_shas`. */
  method FindNoteShas(line: string, oids: seq<string>) returns (shas: seq<string>)
    ensures shas == NoteShas(line, oids)
  {
    shas := [];
    var tokens := ShaTokens(line, 0);
    for i := 0 to |tokens|
      invariant shas == KeepCommits(tokens[..i], oids)
    {
      assert tokens[..i + 1] == tokens[..i] + [tokens[i]];
      KeepAppend(tokens[..i], tokens[i], oids);
      if LowerHex(tokens[i]) in FALSE_FRIENDS {
        continue;
      }
      if exists oid :: oid in oids && oid != "" && PrefixCompatible(oid, tokens[i]) {
        shas := shas + [tokens[i]];
      }
    }
    assert tokens[..|tokens|] == tokens;
  }

  /** `note_names_head`. */
  predicate NamesHead(line: string, head: string, oids: seq<string>) {
    exists t :: t in NoteShas(line, oids) && PrefixCompatible(head, t)
  }

  // ---- commits after a note ----

  datatype Commit = Commit(oid: string, testsPaths: seq<string>)

  function TouchingTests(commits: seq<Commit>): (r: seq<Commit>)
    ensures forall c :: c in r <==> c in commits && c.testsPaths != []
  {
    if commits == [] then []
    else (if commits[0].testsPaths != [] then [commits[0]] else []) + TouchingTests(commits[1..])
  }

  /** `start` is the first commit that `sha` names, or -1 when it names none. */
  predicate IsFirstNamed(commits: seq<Commit>, sha: string, start: int) {
    -1 <= start < |commits|
    && (start >= 0 ==> PrefixCompatible(commits[start].oid, sha))
    && forall k :: 0 <= k < (if start < 0 then |commits| else start) ==> !PrefixCompatible(commits[k].oid, sha)
  }

  /** `tests_commits_after`: behind the first commit that `sha` names, or everywhere when it names none. */
  method TestsCommitsAfter(sha: string, commits: seq<Commit>) returns (later: seq<Commit>, start: int)
    ensures IsFirstNamed(commits, sha, start) && later == TouchingTests(commits[start + 1..])
  {
    hide TouchingTests;
    start := -1;
    for i := 0 to |commits|
      invariant start == -1
      invariant forall k :: 0 <= k < i ==> !PrefixCompatible(commits[k].oid, sha)
    {
      if sha <= commits[i].oid || commits[i].oid <= sha {
        start := i;
        break;
      }
    }
    later := TouchingTests(commits[start + 1..]);
  }

  // ---- the TESTS-READ verdict ----

  datatype Verdict = NotApplicable | NoNote | NoCommits | NoHead | HeadNamed | NoneResolves | OnlyStale
  {
    predicate Green() {
      NotApplicable? || HeadNamed?
    }
  }

  function FirstLines(comments: seq<string>): (r: seq<string>)
    ensures |r| == |comments| && forall i :: 0 <= i < |r| ==> r[i] == FirstNonemptyLine(comments[i])
  {
    seq(|comments|, i requires 0 <= i < |comments| => FirstNonemptyLine(comments[i]))
  }

  function Notes(lines: seq<string>): (r: seq<string>)
    ensures forall l :: l in r <==> l in lines && IsNote(l)
  {
    if lines == [] then [] else (if IsNote(lines[0]) then [lines[0]] else []) + Notes(lines[1..])
  }

  function Oids(commits: seq<Commit>): (r: seq<string>)
    ensures |r| == |commits| && forall i :: 0 <= i < |r| ==> r[i] == commits[i].oid
  {
    seq(|commits|, i requires 0 <= i < |commits| => commits[i].oid)
  }

  predicate TouchesTests(files: seq<string>) {
    exists f :: f in files && StartsWith(f, "tests/")
  }

  /** The loop over the notes, which both gates share: it stops at the first note that names the head. */
  method ScanNotes(notes: seq<string>, head: string, oids: seq<string>) returns (v: Verdict)
    ensures v == if exists l :: l in notes && NamesHead(l, head, oids) then HeadNamed
                 else if forall l :: l in notes ==> NoteShas(l, oids) == [] then NoneResolves
                 else OnlyStale
  {
    var resolvedCount := 0;
    for i := 0 to |notes|
      invariant forall l :: l in notes[..i] ==> !NamesHead(l, head, oids)
      invariant resolvedCount == 0 <==> forall l :: l in notes[..i] ==> NoteShas(l, oids) == []
      invariant resolvedCount >= 0
    {
      var note := notes[i];
      assert note in notes && notes[..i + 1] == notes[..i] + [note];
      var shas := FindNoteShas(note, oids);
      if shas == [] {
        continue;
      }
      resolvedCount := resolvedCount + 1;
      if NamesHead(note, head, oids) {
        return HeadNamed;
      }
    }
    assert notes[..|notes|] == notes;
    v := if resolvedCount == 0 then NoneResolves else OnlyStale;
  }

  /** A note of the thread names the current head. */
  ghost predicate Noted(comments: seq<string>, commits: seq<Commit>, head: string) {
    commits != [] && head != ""
    && exists c :: c in comments && IsNote(FirstNonemptyLine(c)) && NamesHead(FirstNonemptyLine(c), head, Oids(commits))
  }

  predicate HasNote(comments: seq<string>) {
    exists c :: c in comments && IsNote(FirstNonemptyLine(c))
  }

  /** Some note names a commit of the pull request, if not the head. */
  predicate SomeNoteResolves(comments: seq<string>, commits: seq<Commit>) {
    exists c :: c in comments && IsNote(FirstNonemptyLine(c)) && NoteShas(FirstNonemptyLine(c), Oids(commits)) != []
  }

  lemma NamedResolves(line: string, head: string, oids: seq<string>)
    ensures NamesHead(line, head, oids) ==> NoteShas(line, oids) != []
  {}

  /** `evaluate` of the TESTS-READ gate, the message lines reduced to the kind of verdict. */
  method EvaluateTestsRead(files: seq<string>, comments: seq<string>, commits: seq<Commit>, head: string)
    returns (v: Verdict)
    ensures v.NotApplicable? <==> !TouchesTests(files)
    ensures v.Green() <==> !TouchesTests(files) || Noted(comments, commits, head)
    ensures v.NoNote? <==> TouchesTests(files) && !HasNote(comments)
    ensures v.NoCommits? <==> TouchesTests(files) && HasNote(comments) && commits == []
    ensures v.NoHead? <==> TouchesTests(files) && HasNote(comments) && commits != [] && head == ""
    ensures v.NoneResolves? <==>
      TouchesTests(files) && HasNote(comments) && commits != [] && head != "" && !SomeNoteResolves(comments, commits)
    ensures v.OnlyStale? <==>
      TouchesTests(files) && commits != [] && head != "" && SomeNoteResolves(comments, commits) && !Noted(comments, commits, head)
  {
    hide FirstNonemptyLine, IsNote, NoteShas, TouchesTests, NamesHead;
    if !TouchesTests(files) {
      return NotApplicable;
    }
    var notes := Notes(FirstLines(comments));
    LinesOfComments(comments);
    assert notes != [] ==> notes[0] in notes;
    forall line ensures NamesHead(line, head, Oids(commits)) ==> NoteShas(line, Oids(commits)) != [] {
      NamedResolves(line, head, Oids(commits));
    }
    if notes == [] {
      return NoNote;
    }
    if commits == [] {
      return NoCommits;
    }
    if head == "" {
      return NoHead;
    }
    v := ScanNotes(notes, head, Oids(commits));
  }

  lemma LinesOfComments(comments: seq<string>)
    ensures forall l :: l in FirstLines(comments) <==> exists c :: c in comments && l == FirstNonemptyLine(c)
  {
    forall l ensures l in FirstLines(comments) <==> exists c :: c in comments && l == FirstNonemptyLine(c) {
      if l in FirstLines(comments) {
        var i :| 0 <= i < |comments| && FirstLines(comments)[i] == l;
        assert comments[i] in comments;
      }
      if exists c :: c in comments && l == FirstNonemptyLine(c) {
        var c :| c in comments && l == FirstNonemptyLine(c);
        var i :| 0 <= i < |comments| && comments[i] == c;
        assert FirstLines(comments)[i] == l;
      }
    }
  }

  // ---- the re-read verdict ----

  /** `_is_reread_note`. */
  predicate IsRereadNote(line: string) {
    IsNote(line) || IsReRead(line)
  }

  function RereadNotes(lines: seq<string>): (r: seq<string>)
    ensures forall l :: l in r <==> l in lines && IsRereadNote(l)
  {
    if lines == [] then [] else (if IsRereadNote(lines[0]) then [lines[0]] else []) + RereadNotes(lines[1..])
  }

  /** `_has_blocking_comment`: the recogniser is the one of the open-blocking gate. */
  predicate HasBlockingComment(comments: seq<string>) {
    exists c :: c in comments && Raises(c).Some?
  }

  ghost predicate Reread(comments: seq<string>, commits: seq<Commit>, head: string) {
    commits != [] && head != ""
    && exists c :: c in comments && IsRereadNote(FirstNonemptyLine(c)) && NamesHead(FirstNonemptyLine(c), head, Oids(commits))
  }

  /** `evaluate` of the re-read gate. */
  method EvaluateReread(comments: seq<string>, commits: seq<Commit>, head: string) returns (v: Verdict)
    ensures v.NotApplicable? <==> !HasBlockingComment(comments)
    ensures v.Green() <==> !HasBlockingComment(comments) || Reread(comments, commits, head)
    ensures v.NoNote? ==> forall c :: c in comments ==> !IsRereadNote(FirstNonemptyLine(c))
    ensures v.NoneResolves? ==>
      forall c :: c in comments && IsRereadNote(FirstNonemptyLine(c)) ==> NoteShas(FirstNonemptyLine(c), Oids(commits)) == []
    ensures v.OnlyStale? ==>
      exists c :: c in comments && IsRereadNote(FirstNonemptyLine(c)) && NoteShas(FirstNonemptyLine(c), Oids(commits)) != []
  {
    hide FirstNonemptyLine, IsRereadNote, NoteShas, HasBlockingComment, NamesHead;
    if !HasBlockingComment(comments) {
      return NotApplicable;
    }
    var notes := RereadNotes(FirstLines(comments));
    LinesOfComments(comments);
    if notes == [] {
      return NoNote;
    }
    if commits == [] {
      return NoCommits;
    }
    if head == "" {
      return NoHead;
    }
    v := ScanNotes(notes, head, Oids(commits));
  }

  // ---- histories ----

  datatype Thread = Thread(files: seq<string>, comments: seq<string>, commits: seq<Commit>, head: string)

  datatype Event = Post(comment: string) | Push(files: seq<string>, commits: seq<Commit>, head: string)

  /** A push may rewrite the branch, so it brings the whole new lists of touched files and commits. */
  function Apply(t: Thread, e: Event): Thread {
    match e
    case Post(c) => t.(comments := t.comments + [c])
    case Push(files, commits, head) => t.(files := files, commits := commits, head := head)
  }

  function After(t: Thread, events: seq<Event>): Thread
    decreases |events|
  {
    if events == [] then t else After(Apply(t, events[0]), events[1..])
  }

  ghost predicate TestsReadGreen(t: Thread) {
    !TouchesTests(t.files) || Noted(t.comments, t.commits, t.head)
  }

  ghost predicate RereadGreen(t: Thread) {
    !HasBlockingComment(t.comments) || Reread(t.comments, t.commits, t.head)
  }

  predicate OnlyPosts(events: seq<Event>) {
    forall e :: e in events ==> e.Post?
  }

  /** Posting never undoes a green TESTS-READ verdict, however much is posted. */
  lemma {:induction false} PostingKeepsGreen(t: Thread, events: seq<Event>)
    requires OnlyPosts(events) && TestsReadGreen(t)
    ensures TestsReadGreen(After(t, events))
    decreases |events|
  {
    hide TouchesTests, IsNote, NamesHead, FirstNonemptyLine;
    if events == [] {
    } else {
      assert events[0] in events;
      var next := Apply(t, events[0]);
      assert forall c :: c in t.comments ==> c in next.comments;
      PostingKeepsGreen(next, events[1..]);
    }
  }

  /** After a push that leaves the pull request touching tests, it is red unless a posted note already names the new head. */
  lemma PushNeedsANote(t: Thread, files: seq<string>, commits: seq<Commit>, head: string)
    requires TouchesTests(files)
    requires forall c, s :: c in t.comments && s in ShaTokens(FirstNonemptyLine(c), 0) ==> !PrefixCompatible(head, s)
    ensures !TestsReadGreen(Apply(t, Push(files, commits, head)))
  {
    hide TouchesTests, IsNote, FirstNonemptyLine, ShaTokens;
  }

  /** A line that opens with the note marker and has the head's name as a token of its own. */
  ghost predicate FreshNote(line: string, head: string) {
    IsNote(line) && IsShaToken(line, 0, head)
  }

  /** One fresh note for the current head restores green, whatever came before. */
  lemma FreshNoteRestores(t: Thread, comment: string)
    requires t.head in Oids(t.commits) && LowerHex(t.head) !in FALSE_FRIENDS
    requires FreshNote(FirstNonemptyLine(comment), t.head)
    ensures TestsReadGreen(Apply(t, Post(comment)))
  {
    var line := FirstNonemptyLine(comment);
    var next := Apply(t, Post(comment));
    var i: nat, j: nat :| ShaRun(line, i, j) && line[i..j] == t.head;
    TokensAreRuns(line, 0, t.head);
    assert t.head != "" && NamesCommit(t.head, Oids(t.commits));
    assert t.head in NoteShas(line, Oids(t.commits));
    assert NamesHead(line, t.head, Oids(t.commits));
    assert comment in next.comments;
  }

  function PlainNote(head: string): string {
    "TESTS-READ (head " + head + ")"
  }

  lemma PlainNoteShape(head: string)
    ensures var n := PlainNote(head);
            |n| == 18 + |head| && n[..17] == "TESTS-READ (head " && n[17..17 + |head|] == head && n[17 + |head|] == ')'
  {
  }

  predicate NamesTree(head: string) {
    7 <= |head| <= 40 && forall c :: c in head ==> IsHex(c)
  }

  /** `**[role]** - `, with a dash, as the gate's own message shows it. */
  function RolePrefix(role: string): string {
    "**[" + role + "]** " + [DASH] + " "
  }

  predicate IsRole(role: string) {
    role != "" && ']' !in role && '\n' !in role
  }

  lemma RolePrefixShape(role: string, rest: string)
    requires IsRole(role)
    ensures var n, j := RolePrefix(role) + rest, 3 + |role|;
            |RolePrefix(role)| == j + 6 && RoleShape(n, j, j + 4)
            && (rest != "" && !IsSpace(rest[0]) ==> KeywordStart(n) == j + 6)
  {
    hide RolePrefixEnd, IsSpace;
    var p, j := RolePrefix(role), 3 + |role|;
    var n := p + rest;
    assert n[0..3] == "**[" && n[j..j + 3] == "]**";
    forall x | 3 <= x < j ensures n[x] != ']' {
      assert n[x] == role[x - 3] && role[x - 3] in role;
    }
    assert n[j + 3] == ' ' && n[j + 4] == DASH && n[j + 5] == ' ' && IsSpace(' ') by { SpaceIsSpace(); }
    RoleShapeEnd(n, j, j + 4);
    if rest != "" && !IsSpace(rest[0]) {
      assert n[j + 6] == rest[0];
      SkipSpacesIs(n, j + 5, j + 6);
    }
  }

  lemma SpaceIsSpace()
    ensures IsSpace(' ') && !IsSpace('*') && !IsSpace('T') && !IsSpace(')')
  {}

  /** A note is fresh wherever its keyword stands as the first thing after what precedes it. */
  lemma NoteIsFresh(front: string, head: string)
    requires NamesTree(head) && KeywordStart(front + PlainNote(head)) == |front|
    ensures FreshNote(front + PlainNote(head), head)
  {
    hide KeywordStart, IsHex, IsWord;
    var n, i := front + PlainNote(head), |front| + 17;
    PlainNoteShape(head);
    assert forall k :: 0 <= k < |PlainNote(head)| ==> n[|front| + k] == PlainNote(head)[k];
    forall k | i <= k < i + |head| ensures IsHex(n[k]) {
      assert n[k] == PlainNote(head)[..][k - |front|] == head[k - i];
      assert head[k - i] in head;
    }
    assert PlainNote(head)[16] == "TESTS-READ (head "[16] == ' ';
    PunctuationIsNoHex();
    assert n[i..i + |head|] == head;
    assert ShaRun(n, i, i + |head|);
    NoteOpens(front, n);
  }

  lemma PunctuationIsNoHex()
    ensures !IsHex(' ') && !IsHex(')') && !IsWord(' ') && IsWord('D')
  {}

  lemma NoteOpens(front: string, n: string)
    requires |n| > |front| + 17 && n[|front|..|front| + 17] == "TESTS-READ (head " && KeywordStart(n) == |front|
    ensures IsNote(n)
  {
    hide KeywordStart;
    var i := |front|;
    var opening := n[i..i + 17];
    assert forall k :: 0 <= k < 17 ==> opening[k] == n[i + k];
    assert FoldHasAt(n, i, "tests-read");
    assert IsBoundary(n, i + 10);
  }

  lemma NoteIsALine(front: string, head: string)
    requires NamesTree(head) && '\n' !in front && (front != "" ==> !IsSpace(front[0]))
    ensures FirstNonemptyLine(front + PlainNote(head)) == front + PlainNote(head)
  {
    hide IsSpace, IsHex, SplitLines, Strip, NamesTree;
    var n := front + PlainNote(head);
    PlainNoteShape(head);
    SpaceIsSpace();
    forall k | 0 <= k < |n| ensures n[k] != '\n' {
      if k < |front| {
        assert n[k] == front[k] && front[k] in front;
      } else {
        PlainNoteHasNoBreak(head, k - |front|);
      }
    }
    assert n[0] == if front == "" then PlainNote(head)[0] else front[0];
    assert PlainNote(head)[..17][0] == 'T';
    assert n[|n| - 1] == PlainNote(head)[17 + |head|];
    OneLineIsFirst(n);
  }

  lemma OneLineIsFirst(n: string)
    requires n != "" && (forall k :: 0 <= k < |n| ==> n[k] != '\n') && !IsSpace(n[0]) && !IsSpace(n[|n| - 1])
    ensures FirstNonemptyLine(n) == n
  {
    hide IsSpace;
    LineEndIs(n, |n|);
    SkipSpacesIs(n, 0, 0);
    assert SplitLines(n) == [n] && Strip(n) == n;
  }

  lemma PlainNoteHasNoBreak(head: string, k: nat)
    requires NamesTree(head) && k < |PlainNote(head)|
    ensures PlainNote(head)[k] != '\n'
  {
    var n := PlainNote(head);
    PlainNoteShape(head);
    if k < 17 {
      assert n[k] == n[..17][k] == "TESTS-READ (head "[k];
    } else if k < 17 + |head| {
      assert n[k] == n[17..17 + |head|][k - 17] == head[k - 17] && head[k - 17] in head;
    }
  }

  lemma PlainNoteStarts(head: string)
    ensures KeywordStart(PlainNote(head)) == 0 && KeywordStart("" + PlainNote(head)) == 0
  {
    var n := PlainNote(head);
    PlainNoteShape(head);
    assert n[0..3][0] == n[0] == n[..17][0] == 'T';
    assert "" + n == n;
  }

  /** Hence posting the bare note restores green after any history. */
  lemma PlainNoteRestores(t: Thread)
    requires t.head in Oids(t.commits) && LowerHex(t.head) !in FALSE_FRIENDS && NamesTree(t.head)
    ensures TestsReadGreen(Apply(t, Post(PlainNote(t.head))))
  {
    hide FirstNonemptyLine, FreshNote, PlainNote, KeywordStart;
    var n := PlainNote(t.head);
    assert "" + n == n;
    PlainNoteStarts(t.head);
    NoteIsFresh("", t.head);
    NoteIsALine("", t.head);
    FreshNoteRestores(t, n);
  }

  /** And so does the note with a role prefix, which the gate's own message asks for, whatever the role. */
  lemma RoleNoteRestores(t: Thread, role: string)
    requires t.head in Oids(t.commits) && LowerHex(t.head) !in FALSE_FRIENDS && NamesTree(t.head) && IsRole(role)
    ensures TestsReadGreen(Apply(t, Post(RolePrefix(role) + PlainNote(t.head))))
  {
    hide FirstNonemptyLine, FreshNote, KeywordStart, IsSpace, RoleShape;
    var front, n := RolePrefix(role), PlainNote(t.head);
    SpaceIsSpace();
    PlainNoteShape(t.head);
    assert n[0] == n[..17][0] == 'T';
    RolePrefixShape(role, n);
    RolePrefixIsPlain(role);
    NoteIsFresh(front, t.head);
    NoteIsALine(front, t.head);
    FreshNoteRestores(t, front + n);
  }

  lemma RolePrefixIsPlain(role: string)
    requires IsRole(role)
    ensures RolePrefix(role) != "" && '\n' !in RolePrefix(role) && RolePrefix(role)[0] == '*'
  {
    var p := RolePrefix(role);
    assert p[0] == "**["[0];
    assert '\n' !in "**[" && '\n' !in "]** " && '\n' !in [DASH] && '\n' !in " ";
  }

  /** For a pull request that touches tests, a green TESTS-READ verdict makes the re-read verdict green. */
  lemma TestsReadImpliesReread(t: Thread)
    requires TouchesTests(t.files) && TestsReadGreen(t)
    ensures RereadGreen(t)
  {
    hide TouchesTests, IsNote, IsReRead, NamesHead, FirstNonemptyLine, Raises;
    var c :| c in t.comments && IsNote(FirstNonemptyLine(c)) && NamesHead(FirstNonemptyLine(c), t.head, Oids(t.commits));
    assert IsRereadNote(FirstNonemptyLine(c));
  }

  /** An identifier that is no commit of the pull request, such as a comment number, names no head. */
  lemma StrangersNameNothing(line: string, head: string, oids: seq<string>)
    requires forall s, oid :: s in ShaTokens(line, 0) && oid in oids && oid != "" ==> !PrefixCompatible(oid, s)
    ensures !NamesHead(line, head, oids)
  {
    hide ShaTokens;
  }
}
