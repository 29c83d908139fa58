/**
  Which identifiers a diff removes, and which documents still name them
  (scripts/check_doc_drift.py): the reader, the stripper and the redactor put together.
 */
module Drift {
  import opened Wrappers
  import opened Text
  import opened DiffParser
  import opened DiffRoundTrip
  import opened DiffLaws
  import opened Stripper
  import opened StripLexer
  import opened StripGlue
  import opened Redactor

  // ---- identifiers in a line ----

  predicate IsNameStart(c: char) {
    'a' <= c <= 'z' || 'A' <= c <= 'Z' || c == '_'
  }

  predicate IsNameChar(c: char) {
    IsNameStart(c) || IsDigit(c)
  }

  predicate IsName(x: string) {
    x != "" && IsNameStart(x[0]) && forall k :: 0 <= k < |x| ==> IsNameChar(x[k])
  }

  function NameEnd(s: string, i: nat): (j: nat)
    requires i <= |s|
    ensures i <= j <= |s|
    ensures forall k :: i <= k < j ==> IsNameChar(s[k])
    ensures j < |s| ==> !IsNameChar(s[j])
    decreases |s| - i
  {
    if i < |s| && IsNameChar(s[i]) then NameEnd(s, i + 1) else i
  }

  /** `_IDENTIFIER_RE.findall`, from offset `i` on. */
  function FindNames(s: string, i: nat): seq<string>
    requires i <= |s|
    decreases |s| - i
  {
    if i == |s| then []
    else if IsNameStart(s[i]) && WordStarts(s, i) && WordEnds(s, NameEnd(s, i)) then
      [s[i..NameEnd(s, i)]] + FindNames(s, NameEnd(s, i))
    else FindNames(s, i + 1)
  }

  lemma NameCharIsWord(c: char)
    ensures IsNameChar(c) ==> IsWord(c)
  {}

  lemma {:induction false} NameEndIs(s: string, k: int, x: string)
    requires WholeWordAt(s, k, x) && IsName(x)
    ensures IsNameStart(s[k]) && NameEnd(s, k) == k + |x|
  {
    hide IsWord, IsNameStart, IsNameChar;
    var e := NameEnd(s, k);
    forall i | k <= i < k + |x| ensures IsNameChar(s[i]) && s[i] == x[i - k] {
      HasAtChar(s, k, x, i - k);
    }
    if k + |x| < e {
      NameCharIsWord(s[k + |x|]);
    }
  }

  lemma {:induction false} FindNamesIs(s: string, i: nat, x: string)
    requires i <= |s|
    ensures x in FindNames(s, i) <==> IsName(x) && exists k :: i <= k && WholeWordAt(s, k, x)
    decreases |s| - i
  {
    hide IsWord, IsNameStart, IsNameChar, IsName, WholeWordAt;
    if i == |s| {
      NoNameAtEnd(s, x);
    } else {
      var e := NameEnd(s, i);
      if IsNameStart(s[i]) && WordStarts(s, i) && WordEnds(s, e) {
        FoundIsName(s, i);
        FindNamesIs(s, e, x);
        NothingBetween(s, i, x);
      } else {
        FindNamesIs(s, i + 1, x);
        NothingHere(s, i, x);
      }
    }
  }

  lemma NoNameAtEnd(s: string, x: string)
    ensures IsName(x) ==> !exists k :: |s| <= k && WholeWordAt(s, k, x)
  {}

  lemma FoundIsName(s: string, i: nat)
    requires i < |s| && IsNameStart(s[i]) && WordStarts(s, i) && WordEnds(s, NameEnd(s, i))
    ensures i < NameEnd(s, i) && IsName(s[i..NameEnd(s, i)]) && WholeWordAt(s, i, s[i..NameEnd(s, i)])
  {
    hide IsWord, IsNameStart, IsNameChar, IsName, HasAt, WordStarts, WordEnds;
    StartIsNameChar(s[i]);
    SliceIsName(s, i, NameEnd(s, i));
  }

  lemma SliceIsName(s: string, i: nat, e: nat)
    requires i < e <= |s| && IsNameStart(s[i]) && forall k :: i <= k < e ==> IsNameChar(s[k])
    ensures IsName(s[i..e]) && HasAt(s, i, s[i..e])
  {
    hide IsNameStart, IsNameChar;
    var x := s[i..e];
    assert forall k :: 0 <= k < |x| ==> x[k] == s[i + k];
  }

  lemma StartIsNameChar(c: char)
    requires IsNameStart(c)
    ensures IsNameChar(c)
  {}

  /** From a found name on, the next name starts at its end or later. */
  lemma NothingBetween(s: string, i: nat, x: string)
    requires i < |s| && IsNameStart(s[i])
    ensures IsName(x) ==> forall k :: i <= k < NameEnd(s, i) && WholeWordAt(s, k, x) ==> x == s[i..NameEnd(s, i)]
  {
    hide IsWord, IsNameStart, IsNameChar;
    forall k | IsName(x) && i <= k < NameEnd(s, i) && WholeWordAt(s, k, x) ensures x == s[i..NameEnd(s, i)] {
      if i < k {
        NameCharIsWord(s[k - 1]);
      }
      NameEndIs(s, k, x);
    }
  }

  lemma {:induction false} NothingHere(s: string, i: nat, x: string)
    requires i < |s| && !(IsNameStart(s[i]) && WordStarts(s, i) && WordEnds(s, NameEnd(s, i)))
    ensures IsName(x) ==> !WholeWordAt(s, i, x)
  {
    if IsName(x) && WholeWordAt(s, i, x) {
      NameEndIs(s, i, x);
    }
  }

  /** `findall` returns exactly the names that stand in the line as whole words. */
  lemma FoundAreMentioned(s: string, x: string)
    ensures x in FindNames(s, 0) <==> IsName(x) && Mentions(s, x)
  {
    FindNamesIs(s, 0, x);
    if IsName(x) && Mentions(s, x) {
      var k :| WholeWordAt(s, k, x);
    }
  }

  // ---- the identifiers that one file loses ----

  predicate IsSalient(x: string) {
    '_' in x || '.' in x || |x| >= 8
  }

  function NamesOf(lines: seq<string>): (r: set<string>)
    ensures forall x :: x in r <==> exists line :: line in lines && x in FindNames(line, 0)
  {
    set line, x | line in lines && x in FindNames(line, 0) :: x
  }

  lemma NamesAreMentioned(lines: seq<string>, x: string)
    ensures x in NamesOf(lines) <==> IsName(x) && AnyMentions(lines, x)
  {
    forall line | line in lines ensures x in FindNames(line, 0) <==> IsName(x) && Mentions(line, x) {
      FoundAreMentioned(line, x);
    }
  }

  /** The lines of a Python file are stripped first. */
  function CodeLines(path: string, lines: seq<string>): seq<string> {
    if EndsWith(path, ".py") then StripLines(lines, None) else lines
  }

  /** The name stands in a removed line and in no added line, as far as the stripper leaves them. */
  ghost predicate Loses(d: FileDiff, x: string) {
    IsName(x) && IsSalient(x) &&
    AnyMentions(CodeLines(d.path, d.removed), x) && !AnyMentions(CodeLines(d.path, d.added), x)
  }

  method RemovedIdentifiersInFile(d: FileDiff) returns (r: set<string>)
    ensures forall x :: x in r <==> Loses(d, x)
  {
    hide NamesOf, StripLines, AnyMentions, IsName;
    var removed, added := d.removed, d.added;
    if EndsWith(d.path, ".py") {
      removed := StripCommentsAndDocstrings(d.removed);
      added := StripCommentsAndDocstrings(d.added);
    }
    r := set x | x in NamesOf(removed) - NamesOf(added) && IsSalient(x);
    forall x ensures x in r <==> Loses(d, x) {
      NamesAreMentioned(removed, x);
      NamesAreMentioned(added, x);
    }
  }

  method FindRemovedIdentifiers(diffText: string, prefix: string) returns (r: set<string>)
    ensures forall x :: x in r <==>
      exists d :: d in FileDiffs(TextLines(diffText)) && StartsWith(d.path, prefix) && Loses(d, x)
  {
    hide Loses, TextLines, FileDiffs, StartsWith;
    var files := IterFileDiffs(diffText);
    r := {};
    for i := 0 to |files|
      invariant forall x :: x in r <==> exists d :: d in files[..i] && StartsWith(d.path, prefix) && Loses(d, x)
    {
      var d := files[i];
      assert files[..i + 1] == files[..i] + [d];
      if !StartsWith(d.path, prefix) {
        continue;
      }
      var here := RemovedIdentifiersInFile(d);
      r := r + here;
    }
    assert files[..|files|] == files;
  }

  // ---- the precise path ----

  /** The lines on which the tokenizer of one image finds each name. */
  type TokenLines = map<string, set<nat>>

  /** The core of `find_removed_identifiers_precise` for a file whose two images tokenize. */
  method RemovedPrecisely(d: FileDiff, pre: TokenLines, post: TokenLines) returns (r: set<string>)
    ensures forall x :: x in r <==>
      IsSalient(x) && Touches(pre, d.removedNos, x) && !Touches(post, d.addedNos, x)
  {
    var removedNos, addedNos := (set n | n in d.removedNos), (set n | n in d.addedNos);
    var removedHere := set x | x in pre && pre[x] * removedNos != {};
    var addedHere := set x | x in post && post[x] * addedNos != {};
    r := set x | x in removedHere - addedHere && IsSalient(x);
    forall x ensures x in removedHere <==> Touches(pre, d.removedNos, x) {
      if x in pre {
        MeetIffTouches(pre, d.removedNos, x);
      }
    }
    forall x ensures x in addedHere <==> Touches(post, d.addedNos, x) {
      if x in post {
        MeetIffTouches(post, d.addedNos, x);
      }
    }
  }

  /** ASCII letters, digits and underscores, no digit in front. */
  lemma NameIff(x: string)
    ensures IsName(x) <==> x != "" && !(48 <= x[0] as int <= 57) && forall k :: 0 <= k < |x| ==>
      var n := x[k] as int; 48 <= n <= 57 || 65 <= n <= 90 || n == 95 || 97 <= n <= 122
  {}

  lemma NamesHaveNoDot(x: string)
    requires IsName(x)
    ensures '.' !in x
  {}

  /** Which name a file loses: one with an underscore or of eight characters, the test for a dot never deciding. */
  lemma LosesIff(d: FileDiff, x: string)
    ensures var isPython := 3 <= |d.path| && d.path[|d.path| - 3..] == ".py";
      Loses(d, x) <==>
      IsName(x) && ('_' in x || 8 <= |x|) &&
      (exists line :: line in (if isPython then StripLines(d.removed, None) else d.removed) && Mentions(line, x)) &&
      !exists line :: line in (if isPython then StripLines(d.added, None) else d.added) && Mentions(line, x)
  {
    hide Mentions, StripLines, IsName;
    if IsName(x) {
      NamesHaveNoDot(x);
    }
    assert 3 <= |d.path| ==> d.path[|d.path| - 3..|d.path|] == d.path[|d.path| - 3..];
  }

  predicate Touches(tokens: TokenLines, nos: seq<nat>, x: string) {
    x in tokens && exists n :: n in tokens[x] && n in nos
  }

  lemma MeetIffTouches(tokens: TokenLines, nos: seq<nat>, x: string)
    requires x in tokens
    ensures tokens[x] * (set n | n in nos) != {} <==> Touches(tokens, nos, x)
  {
    var common := tokens[x] * (set n | n in nos);
    if common != {} {
      var n :| n in common;
    }
    if n :| n in tokens[x] && n in nos {
      assert n in common;
    }
  }

  /** What the tokenizer makes of the two images of a file whose contents could be read. */
  datatype Images = Images(pre: TokenLines, preIsBlank: bool, post: TokenLines)

  predicate Tokenizes(images: Images) {
    images.pre != map[] || images.preIsBlank
  }

  /** The tokenizer decides where both images are there and the first one tokenizes, else the line heuristic. */
  ghost predicate LosesIn(images: map<string, Images>, d: FileDiff, x: string) {
    if d.path in images && Tokenizes(images[d.path]) then
      IsSalient(x) && Touches(images[d.path].pre, d.removedNos, x) && !Touches(images[d.path].post, d.addedNos, x)
    else
      Loses(d, x)
  }

  /** Which way a file goes: by its tokens when the first image has some, or is blank; else by its lines. */
  lemma WayIff(images: map<string, Images>, d: FileDiff, x: string)
    ensures d.path !in images ==> (LosesIn(images, d, x) <==> Loses(d, x))
    ensures d.path in images && images[d.path].pre == map[] ==>
      (LosesIn(images, d, x) <==> !images[d.path].preIsBlank && Loses(d, x))
    ensures d.path in images && images[d.path].pre != map[] ==>
      (LosesIn(images, d, x) <==>
        IsSalient(x) && Touches(images[d.path].pre, d.removedNos, x) && !Touches(images[d.path].post, d.addedNos, x))
  {
    hide Loses, IsSalient;
  }

  /** `find_removed_identifiers_precise`. */
  method FindRemovedPrecisely(diffText: string, prefix: string, images: map<string, Images>) returns (r: set<string>)
    ensures forall x :: x in r <==> exists d ::
      d in FileDiffs(TextLines(diffText)) && StartsWith(d.path, prefix) && EndsWith(d.path, ".py") && LosesIn(images, d, x)
  {
    hide Loses, TextLines, FileDiffs, StartsWith, EndsWith, Touches;
    var files := IterFileDiffs(diffText);
    r := {};
    for i := 0 to |files|
      invariant forall x :: x in r <==> exists d ::
        d in files[..i] && StartsWith(d.path, prefix) && EndsWith(d.path, ".py") && LosesIn(images, d, x)
    {
      var d := files[i];
      assert files[..i + 1] == files[..i] + [d];
      if !StartsWith(d.path, prefix) || !EndsWith(d.path, ".py") {
        continue;
      }
      var here: set<string>;
      if d.path !in images || !Tokenizes(images[d.path]) {
        here := RemovedIdentifiersInFile(d);
      } else {
        here := RemovedPrecisely(d, images[d.path].pre, images[d.path].post);
      }
      assert forall x :: x in here <==> LosesIn(images, d, x);
      r := r + here;
    }
    assert files[..|files|] == files;
  }

  /**
    Only the first image is asked whether it tokenizes. With a second image that does not, every salient
    name with a token on a removed line is reported, so wrongly exactly when an added line holds it too.
   */
  lemma UnreadPostImage(images: map<string, Images>, d: FileDiff, x: string, post: TokenLines)
    requires d.path in images && Tokenizes(images[d.path]) && images[d.path].post == map[]
    ensures LosesIn(images, d, x) <==> IsSalient(x) && Touches(images[d.path].pre, d.removedNos, x)
    ensures var told := images[d.path := images[d.path].(post := post)];
            LosesIn(images, d, x) && !LosesIn(told, d, x) <==>
            IsSalient(x) && Touches(images[d.path].pre, d.removedNos, x) && Touches(post, d.addedNos, x)
  {
  }

  /** The numbers of the lines that the edit takes away from an image. */
  predicate EditsLine(c: FileChange, side: Side, n: nat) {
    n in OwnNos(Script(c.blocks, c.tail), side, 1)
  }

  /**
    Over a printed diff whose lines are all visible, the precise path reports exactly the salient names
    with a token on a line that the edit deletes and none on a line that it inserts.
   */
  lemma PreciseMeansDeleted(c: FileChange, pre: TokenLines, post: TokenLines, x: string)
    requires WellFormed(c) && Faithful(c)
    ensures |FileDiffs(FileLines(c))| == 1
    ensures var d := FileDiffs(FileLines(c))[0];
      (Touches(pre, d.removedNos, x) && !Touches(post, d.addedNos, x)) <==>
      (x in pre && exists n :: n in pre[x] && EditsLine(c, Old, n)) &&
      !(x in post && exists n :: n in post[x] && EditsLine(c, New, n))
  {
    ReplayRebuildsPost(c);
  }

  // ---- the check ----

  datatype DriftFinding = DriftFinding(identifier: string, doc: string)

  /** `r` is `s` in the strict order `before`. */
  ghost predicate Ranks(r: seq<string>, s: set<string>, before: (string, string) -> bool) {
    (forall x :: x in r <==> x in s) && forall i, j :: 0 <= i < j < |r| ==> before(r[i], r[j])
  }

  /** `sort` is `sorted` on sets of texts. */
  ghost predicate IsSort(sort: set<string> -> seq<string>, before: (string, string) -> bool) {
    forall s :: Ranks(sort(s), s, before)
  }

  /** By name, then by document. */
  predicate Ordered(findings: seq<DriftFinding>, before: (string, string) -> bool) {
    forall i, j :: 0 <= i < j < |findings| ==>
      before(findings[i].identifier, findings[j].identifier) ||
      (findings[i].identifier == findings[j].identifier && before(findings[i].doc, findings[j].doc))
  }

  method CheckDocDriftPure(gone: set<string>, docs: map<string, set<string>>, touched: set<string>,
                           sort: set<string> -> seq<string>, ghost before: (string, string) -> bool)
    returns (findings: seq<DriftFinding>)
    requires IsSort(sort, before)
    ensures forall f :: f in findings <==>
      f.identifier in gone && f.identifier in docs && f.doc in docs[f.identifier] && f.doc !in touched
    ensures Ordered(findings, before)
  {
    findings := [];
    var names := sort(gone);
    assert Ranks(names, gone, before);
    for i := 0 to |names|
      invariant forall f :: f in findings <==>
        f.identifier in names[..i] && f.identifier in docs && f.doc in docs[f.identifier] && f.doc !in touched
      invariant Ordered(findings, before)
    {
      var id := names[i];
      assert names[..i + 1] == names[..i] + [id];
      var here := FindingsFor(id, sort(if id in docs then docs[id] else {}), touched, before);
      assert Ranks(sort(if id in docs then docs[id] else {}), if id in docs then docs[id] else {}, before);
      AppendOrdered(findings, here, names[..i], id, before);
      findings := findings + here;
    }
    assert names[..|names|] == names;
  }

  /** The inner loop: one name over its documents. */
  method FindingsFor(id: string, paths: seq<string>, touched: set<string>, ghost before: (string, string) -> bool)
    returns (here: seq<DriftFinding>)
    requires forall i, j :: 0 <= i < j < |paths| ==> before(paths[i], paths[j])
    ensures forall f :: f in here <==> f.identifier == id && f.doc in paths && f.doc !in touched
    ensures Ordered(here, before)
  {
    here := [];
    for k := 0 to |paths|
      invariant forall f :: f in here <==> f.identifier == id && f.doc in paths[..k] && f.doc !in touched
      invariant Ordered(here, before)
    {
      assert paths[..k + 1] == paths[..k] + [paths[k]];
      if paths[k] in touched {
        continue;
      }
      forall i | 0 <= i < |here| ensures here[i].identifier == id && before(here[i].doc, paths[k]) {
        assert here[i] in here && here[i].doc in paths[..k];
      }
      here := here + [DriftFinding(id, paths[k])];
    }
    assert paths[..|paths|] == paths;
  }

  lemma AppendOrdered(a: seq<DriftFinding>, b: seq<DriftFinding>, names: seq<string>, id: string,
                      before: (string, string) -> bool)
    requires Ordered(a, before) && Ordered(b, before) && forall n :: n in names ==> before(n, id)
    requires (forall f :: f in a ==> f.identifier in names) && forall f :: f in b ==> f.identifier == id
    ensures Ordered(a + b, before)
  {
    forall i, j | 0 <= i < |a| && 0 <= j < |b| ensures before(a[i].identifier, b[j].identifier) {
      assert a[i] in a && b[j] in b;
    }
  }

  /** The files under `src/` that hold a name as raw text, and the documents that name it. */
  datatype Tree = Tree(hits: map<string, seq<Candidate>>, docs: map<string, set<string>>)

  predicate Readable(tree: Tree) {
    forall x, c :: x in tree.hits && c in tree.hits[x] ==> c.WellFormed()
  }

  function Hits(tree: Tree, x: string): seq<Candidate> {
    if x in tree.hits then tree.hits[x] else []
  }

  ghost predicate Survives(tree: Tree, x: string) {
    exists c :: c in Hits(tree, x) && c.Shows(x)
  }

  lemma NameHasNoSpace(x: string)
    requires IsName(x)
    ensures ' ' !in x
  {
    assert !IsNameChar(' ');
  }

  /** The comprehension of both `resolve_gone_identifiers`, over the names in some order. */
  method GoneIdentifiers(names: seq<string>, tree: Tree) returns (gone: set<string>)
    requires Readable(tree) && forall x :: x in names ==> ' ' !in x
    ensures forall x :: x in gone <==> x in names && !Survives(tree, x)
  {
    hide Candidate.Shows, LiveOccurrence;
    gone := {};
    for i := 0 to |names|
      invariant forall x :: x in gone <==> x in names[..i] && !Survives(tree, x)
    {
      var x := names[i];
      assert x in names && names[..i + 1] == names[..i] + [x];
      var survives := SurvivesInSrc(x, Hits(tree, x));
      forall c: Candidate ensures c.Shows(x) <==>
        c.NotPython? || c.Unreadable? || c.Unparsed? || LiveOccurrence(c.lines, c.docstrings + c.comments, x)
      {
        ShowsIff(c, x);
      }
      if !survives {
        gone := gone + {x};
      }
    }
    assert names[..|names|] == names;
  }

  /** Some file of the diff under `src/` loses the name, by the tokenizer when a pull request gives the images. */
  ghost predicate Removed(files: seq<FileDiff>, images: Option<map<string, Images>>, x: string) {
    match images
    case None => exists d :: d in files && StartsWith(d.path, "src/") && Loses(d, x)
    case Some(m) => exists d :: d in files && StartsWith(d.path, "src/") && EndsWith(d.path, ".py") && LosesIn(m, d, x)
  }

  /** Tokens are names, so they hold no space. */
  predicate AreTokens(images: Option<map<string, Images>>) {
    images.Some? ==> forall path, x :: path in images.value && x in images.value[path].pre ==> ' ' !in x
  }

  /**
    `check_doc_drift`, with the images of a pull request or without: a document is reported for a name
    exactly when the diff removes the name from `src/`, no code of `src/` shows it any more, the
    document still names it, and the diff does not touch the document.
   */
  method CheckDocDrift(diffText: string, images: Option<map<string, Images>>, tree: Tree,
                       sort: set<string> -> seq<string>, ghost before: (string, string) -> bool)
    returns (findings: seq<DriftFinding>)
    requires Readable(tree) && AreTokens(images) && IsSort(sort, before)
    ensures forall f :: f in findings <==>
      var files := FileDiffs(TextLines(diffText));
      Removed(files, images, f.identifier) && !Survives(tree, f.identifier) &&
      f.identifier in tree.docs && f.doc in tree.docs[f.identifier] && forall d :: d in files ==> d.path != f.doc
    ensures Ordered(findings, before)
  {
    hide TextLines, FileDiffs, Loses, LosesIn, Survives, Readable, Ordered;
    var files := IterFileDiffs(diffText);
    var touched := set d | d in files :: d.path;
    var removed: set<string>;
    if images.Some? {
      removed := FindRemovedPrecisely(diffText, "src/", images.value);
    } else {
      removed := FindRemovedIdentifiers(diffText, "src/");
    }
    assert forall x :: x in removed <==> Removed(files, images, x);
    forall x | x in removed ensures ' ' !in x {
      RemovedHasNoSpace(files, images, x);
    }
    assert Ranks(sort(removed), removed, before);
    var gone := GoneIdentifiers(sort(removed), tree);
    findings := CheckDocDriftPure(gone, tree.docs, touched, sort, before);
  }

  lemma RemovedHasNoSpace(files: seq<FileDiff>, images: Option<map<string, Images>>, x: string)
    requires Removed(files, images, x) && AreTokens(images)
    ensures ' ' !in x
  {
    hide AnyMentions, CodeLines, StartsWith, EndsWith;
    if IsName(x) {
      NameHasNoSpace(x);
    }
  }

  // ---- names that only the stripper makes ----

  lemma NameIsWordText(x: string)
    requires IsName(x)
    ensures IsWordText(x)
  {
    hide IsWord;
    forall k | 0 <= k < |x| ensures IsWord(x[k]) {
      NameCharIsWord(x[k]);
    }
  }

  /**
    A name that no removed line holds is reported exactly when a cut in the removed lines makes it,
    with word characters on both sides, and the stripped added lines do not mention it.
   */
  lemma InventedIffMade(d: FileDiff, x: string)
    requires EndsWith(d.path, ".py") && IsName(x) && IsSalient(x) && !AnyMentions(d.removed, x)
    ensures Loses(d, x) <==> MakesWord(d.removed, x) && !AnyMentions(CodeLines(d.path, d.added), x)
  {
    hide StripLines, AnyMentions, MakesWord, IsName, IsWordText;
    NameIsWordText(x);
    if AnyMentions(StripLines(d.removed, None), x) {
      StrippedWordsAreSourceWords(d.removed, x);
    }
    if MakesWord(d.removed, x) {
      MadeWordsAreStripped(d.removed, x);
    }
  }

  /** A removed name that no added line holds goes unreported exactly when a cut in the added lines makes it. */
  lemma MaskedIffMade(d: FileDiff, x: string)
    requires EndsWith(d.path, ".py") && IsName(x) && IsSalient(x) && !AnyMentions(d.added, x)
    requires AnyMentions(CodeLines(d.path, d.removed), x)
    ensures !Loses(d, x) <==> MakesWord(d.added, x)
  {
    hide StripLines, AnyMentions, MakesWord, IsName, IsWordText;
    NameIsWordText(x);
    if AnyMentions(StripLines(d.added, None), x) {
      StrippedWordsAreSourceWords(d.added, x);
    }
    if MakesWord(d.added, x) {
      MadeWordsAreStripped(d.added, x);
    }
  }

  /** So where no cut glues, every reported name stands in a removed line, and no added line hides one that it does not hold. */
  lemma GlueFreeDiffsAreRight(d: FileDiff, x: string)
    requires EndsWith(d.path, ".py") && GlueFreeLines(d.removed) && GlueFreeLines(d.added)
    ensures Loses(d, x) ==> AnyMentions(d.removed, x)
    ensures IsName(x) && IsSalient(x) && AnyMentions(CodeLines(d.path, d.removed), x) && !Loses(d, x) ==>
      AnyMentions(d.added, x)
  {
    hide GlueFreeLines, AnyMentions, MakesWord, IsName, CodeLines;
    MakesWordIffGlue(d.removed);
    MakesWordIffGlue(d.added);
    if IsName(x) && IsSalient(x) {
      if !AnyMentions(d.removed, x) {
        InventedIffMade(d, x);
      }
      if !AnyMentions(d.added, x) && AnyMentions(CodeLines(d.path, d.removed), x) {
        MaskedIffMade(d, x);
      }
    }
  }

  const GLUE := "ab_\"\"\"x\"\"\"cd"

  lemma GlueLineMarks()
    ensures |GLUE| == 12 && GLUE[3] == '"' && QuoteAt(GLUE, 3, Double) && QuoteAt(GLUE, 7, Double)
    ensures (forall k :: 0 <= k < 3 ==> !MarkerAt(GLUE, k)) && (forall k :: 4 <= k < 7 ==> !QuoteAt(GLUE, k, Double))
    ensures Cut(GLUE, 3, 10) == "ab_cd"
  {
    var line := GLUE;
    assert line[3..6] == Spell(Double) && line[7..10] == Spell(Double);
    assert line[..3] + line[10..] == "ab_cd";
    assert line[0..1][0] == 'a' && line[0..3][0] == 'a';
    assert line[1..2][0] == 'b' && line[1..4][0] == 'b';
    assert line[2..3][0] == '_' && line[2..5][0] == '_';
    forall k | 4 <= k < 7 ensures !QuoteAt(GLUE, k, Double) {
      if QuoteAt(GLUE, k, Double) {
        HasAtChar(GLUE, k, Spell(Double), 6 - k);
      }
    }
  }

  lemma GluedIsClean()
    ensures MarkerFree("ab_cd")
  {
    var s := "ab_cd";
    forall i | 0 <= i <= |s| ensures !MarkerAt(s, i) {
      assert forall k :: 0 <= k < |s| ==> s[k] != '#' && s[k] != '"' && s[k] != '\'';
      if HasAt(s, i, "#") { HasAtChar(s, i, "#", 0); }
      if QuoteAt(s, i, Double) { HasAtChar(s, i, Spell(Double), 0); }
      if QuoteAt(s, i, Single) { HasAtChar(s, i, Spell(Single), 0); }
    }
  }

  lemma GlueIsStripped()
    ensures StripLine(GLUE) == ("ab_cd", None)
  {
    hide StripLine, Earliest, MarkerAt, HasAt, Cut;
    GlueLineMarks();
    EarliestIs(GLUE, 3, Double);
    var c := Find(GLUE, Spell(Double), 6);
    assert !QuoteAt(GLUE, 6, Double);
    assert c == Some(7);
    StripLineTurn(GLUE, 3, Triple(Double), c);
    GluedIsClean();
    CleanLine("ab_cd");
  }

  /** Cutting a docstring out of the middle of a line can make a name that stands nowhere in the diff. */
  lemma {:induction false} GluedNameIsReported(path: string)
    requires EndsWith(path, ".py")
    ensures Loses(FileDiff(path, [GLUE], [], [1], []), "ab_cd") && !Mentions(GLUE, "ab_cd")
  {
    hide StripLine;
    GlueIsStripped();
    StripOne(GLUE);
    assert WholeWordAt("ab_cd", 0, "ab_cd");
    assert Mentions("ab_cd", "ab_cd") && "ab_cd"[2] == '_';
    assert StripLines([GLUE], None)[0] == "ab_cd";
    forall k ensures !WholeWordAt(GLUE, k, "ab_cd") {
      if HasAt(GLUE, k, "ab_cd") {
        HasAtChar(GLUE, k, "ab_cd", 0);
        HasAtChar(GLUE, k, "ab_cd", 3);
      }
    }
  }

  lemma StripOne(line: string)
    ensures StripLines([line], None) == [StripLine(line).0] && StripLines([], None) == []
  {
    assert [line][1..] == [];
  }
}
