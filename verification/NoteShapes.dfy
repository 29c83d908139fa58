/** What makes the two note gates green, in terms of the texts of the comments. */
module NoteShapes {
  import opened Wrappers
  import opened Text
  import opened Markers
  import opened MarkerShapes
  import opened BlockingGate
  import opened NoteGates

  /** Some file lies under `tests/`. */
  lemma TouchesIff(files: seq<string>)
    ensures TouchesTests(files) <==> exists f :: f in files && 6 <= |f| && f[..6] == "tests/"
  {
    assert forall f: string :: 6 <= |f| ==> f[0..6] == f[..6];
  }

  // ---- the words that look like a sha ----

  /** The token is the word, in any case. */
  predicate Spells(t: string, word: string) {
    |t| == |word| && FoldHasAt(t, 0, word)
  }

  lemma {:induction false} LowerHexIs(t: string)
    ensures |LowerHex(t)| == |t| && forall k :: 0 <= k < |t| ==> LowerHex(t)[k] == Fold(t[k])
  {
    if t == "" {
    } else {
      LowerHexIs(t[1..]);
    }
  }

  lemma SpellsIff(t: string, word: string)
    ensures Spells(t, word) <==> LowerHex(t) == word
  {
    hide LowerHex, Fold;
    LowerHexIs(t);
    if Spells(t, word) {
      forall k | 0 <= k < |t| ensures LowerHex(t)[k] == word[k] {
        assert Fold(t[0 + k]) == word[k];
      }
    }
  }

  lemma HexLetters(t: string)
    requires forall k :: 0 <= k < |t| ==> IsHex(t[k])
    ensures forall k :: 0 <= k < |t| ==> Fold(t[k]) != 't'
  {}

  /** Of the listed words only three can be read as a token: the others are too short, or `faceted`, which is not hexadecimal. */
  lemma FriendIff(t: string)
    requires 7 <= |t| && forall k :: 0 <= k < |t| ==> IsHex(t[k])
    ensures LowerHex(t) in FALSE_FRIENDS <==> Spells(t, "defaced") || Spells(t, "acceded") || Spells(t, "effaced")
  {
    hide LowerHex, Spells, IsHex;
    SpellsIff(t, "defaced");
    SpellsIff(t, "acceded");
    SpellsIff(t, "effaced");
    LowerHexIs(t);
    HexLetters(t);
    assert LowerHex(t)[4] == Fold(t[4]) && "faceted"[4] == 't';
  }

  // ---- notes that name the head ----

  /** One name begins with the other. */
  predicate Agree(a: string, b: string) {
    (|a| <= |b| && b[..|a|] == a) || (|b| <= |a| && a[..|b|] == b)
  }

  /** A whole run of 7 to 40 hexadecimal digits, no English word, that begins like a commit and like the head. */
  ghost predicate NamesHeadAt(line: string, head: string, oids: seq<string>, i: nat, j: nat) {
    ShaRun(line, i, j) && Agree(head, line[i..j]) &&
    !Spells(line[i..j], "defaced") && !Spells(line[i..j], "acceded") && !Spells(line[i..j], "effaced") &&
    exists oid :: oid in oids && oid != "" && Agree(oid, line[i..j])
  }

  lemma AgreeIff(a: string, b: string)
    ensures Agree(a, b) <==> PrefixCompatible(a, b)
  {}

  lemma RunIsToken(line: string, i: nat, j: nat)
    requires ShaRun(line, i, j)
    ensures 7 <= |line[i..j]| && forall k :: 0 <= k < |line[i..j]| ==> IsHex(line[i..j][k])
  {
    hide IsHex;
    var t := line[i..j];
    assert forall k :: 0 <= k < |t| ==> t[k] == line[i + k];
  }

  lemma CommitIff(t: string, oids: seq<string>)
    requires 7 <= |t| && forall k :: 0 <= k < |t| ==> IsHex(t[k])
    ensures NamesCommit(t, oids) <==>
      !Spells(t, "defaced") && !Spells(t, "acceded") && !Spells(t, "effaced") &&
      exists oid :: oid in oids && oid != "" && Agree(oid, t)
  {
    hide LowerHex, Spells, IsHex, Agree, PrefixCompatible;
    FriendIff(t);
    forall oid ensures Agree(oid, t) <==> PrefixCompatible(oid, t) {
      AgreeIff(oid, t);
    }
  }

  lemma RunsFit(line: string)
    ensures forall i: nat, j: nat :: ShaRun(line, i, j) ==> i < j <= |line|
  {}

  lemma NamesHeadIff(line: string, head: string, oids: seq<string>)
    ensures NamesHead(line, head, oids) <==> exists i: nat, j: nat :: NamesHeadAt(line, head, oids, i, j)
  {
    hide NamesCommit, Spells, IsHex, Agree, PrefixCompatible, ShaTokens, ShaRun;
    forall t ensures t in ShaTokens(line, 0) <==> IsShaToken(line, 0, t) {
      TokensAreRuns(line, 0, t);
    }
    forall i: nat, j: nat | i < j <= |line| && ShaRun(line, i, j)
      ensures NamesHeadAt(line, head, oids, i, j) <==> NamesCommit(line[i..j], oids) && PrefixCompatible(head, line[i..j])
    {
      RunIsToken(line, i, j);
      CommitIff(line[i..j], oids);
      AgreeIff(head, line[i..j]);
    }
    RunsFit(line);
    if NamesHead(line, head, oids) {
      var t :| t in NoteShas(line, oids) && PrefixCompatible(head, t);
      var i: nat, j: nat :| ShaRun(line, i, j) && line[i..j] == t;
      assert NamesHeadAt(line, head, oids, i, j);
    }
    if i: nat, j: nat :| NamesHeadAt(line, head, oids, i, j) {
      var t := line[i..j];
      assert IsShaToken(line, 0, t) && t in NoteShas(line, oids);
    }
  }

  // ---- the verdicts ----

  lemma NotesAre(line: string)
    ensures IsNote(line) <==> OpensNote(line)
    ensures IsRereadNote(line) <==> OpensNote(line) || OpensReread(line)
  {
    hide IsNote, IsReRead, OpensNote, OpensReread;
    NoteIff(line);
    RereadIff(line);
  }

  /** The TESTS-READ gate is green exactly when no file under `tests/` is touched or a note names the head. */
  lemma TestsReadIff(t: Thread)
    ensures TestsReadGreen(t) <==>
      (forall f :: f in t.files ==> !(6 <= |f| && f[..6] == "tests/")) ||
      (t.commits != [] && t.head != "" &&
       exists c, i: nat, j: nat :: c in t.comments && OpensNote(FirstNonemptyLine(c)) &&
         NamesHeadAt(FirstNonemptyLine(c), t.head, Oids(t.commits), i, j))
  {
    hide TouchesTests, IsNote, OpensNote, NamesHead, NamesHeadAt, FirstNonemptyLine;
    TouchesIff(t.files);
    forall c ensures IsNote(FirstNonemptyLine(c)) <==> OpensNote(FirstNonemptyLine(c)) {
      NotesAre(FirstNonemptyLine(c));
    }
    forall c ensures NamesHead(FirstNonemptyLine(c), t.head, Oids(t.commits)) <==>
      exists i: nat, j: nat :: NamesHeadAt(FirstNonemptyLine(c), t.head, Oids(t.commits), i, j)
    {
      NamesHeadIff(FirstNonemptyLine(c), t.head, Oids(t.commits));
    }
  }

  /** The comment is read as a BLOCKING marker for some head. */
  ghost predicate Blocks(comment: string) {
    exists m :: IsHeadMark(m) && HasAt(ReadLine(comment), KeywordStart(ReadLine(comment)), SpellHeadMark("BLOCKING", m))
  }

  lemma BlocksIff(comment: string)
    ensures Raises(comment).Some? <==> Blocks(comment)
  {
    hide Raises, IsHeadMark, SpellHeadMark, ReadLine, KeywordStart, HasAt;
    if Raises(comment).Some? {
      RaisesIff(comment, Raises(comment).value);
    }
    forall m | IsHeadMark(m) && HasAt(ReadLine(comment), KeywordStart(ReadLine(comment)), SpellHeadMark("BLOCKING", m))
      ensures Raises(comment).Some?
    {
      RaisesIff(comment, m.sha);
    }
  }

  /** The re-read gate is green exactly when no comment blocks or a note of either kind names the head. */
  lemma RereadGateIff(t: Thread)
    ensures RereadGreen(t) <==>
      (forall c :: c in t.comments ==> !Blocks(c)) ||
      (t.commits != [] && t.head != "" &&
       exists c, i: nat, j: nat :: c in t.comments &&
         (OpensNote(FirstNonemptyLine(c)) || OpensReread(FirstNonemptyLine(c))) &&
         NamesHeadAt(FirstNonemptyLine(c), t.head, Oids(t.commits), i, j))
  {
    hide Raises, Blocks, IsNote, IsRereadNote, OpensNote, OpensReread, NamesHead, NamesHeadAt, FirstNonemptyLine;
    forall c ensures Raises(c).Some? <==> Blocks(c) {
      BlocksIff(c);
    }
    forall c ensures IsRereadNote(FirstNonemptyLine(c)) <==> OpensNote(FirstNonemptyLine(c)) || OpensReread(FirstNonemptyLine(c)) {
      NotesAre(FirstNonemptyLine(c));
    }
    forall c ensures NamesHead(FirstNonemptyLine(c), t.head, Oids(t.commits)) <==>
      exists i: nat, j: nat :: NamesHeadAt(FirstNonemptyLine(c), t.head, Oids(t.commits), i, j)
    {
      NamesHeadIff(FirstNonemptyLine(c), t.head, Oids(t.commits));
    }
  }
}
