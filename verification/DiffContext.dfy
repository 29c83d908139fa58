/** Exactly when the text of a printed diff is read back, whatever its context lines, headings and meta lines hold. */
module DiffContext {
  import opened Text
  import opened DiffParser
  import opened DiffRoundTrip
  import opened DiffLaws
  import opened DiffText

  // ---- a printed line is split by itself ----

  /** What `splitlines` makes of a printed line. */
  function Pieces(line: string): (pieces: seq<string>)
    ensures pieces != []
  {
    TextLines(line + "\n")
  }

  function PiecesOf(lines: seq<string>): seq<string> {
    if lines == [] then [] else Pieces(lines[0]) + PiecesOf(lines[1..])
  }

  lemma BreakBefore(a: string, b: string)
    requires exists k :: 0 <= k < |a| && IsBreak(a[k])
    ensures BreakAt(a + b, 0) == BreakAt(a, 0) < |a|
  {
    var j := BreakAt(a, 0);
    assert j < |a|;
    forall k | 0 <= k < j ensures !IsBreak((a + b)[k]) {
      assert (a + b)[k] == a[k];
    }
    BreakAtIs(a + b, j);
  }

  /** A line without a break is followed by the lines of what comes behind its line feed. */
  lemma UnbrokenFirst(a: string, b: string)
    requires Unbroken(a)
    ensures TextLines(a + "\n" + b) == [a] + TextLines(b)
  {
    var s := a + "\n" + b;
    forall k | 0 <= k < |a| ensures !IsBreak(s[k]) {
      assert s[k] == a[k] && a[k] in a;
    }
    BreakAtIs(s, |a|);
    assert s[..|a|] == a && s[|a| + 1..] == b;
  }

  /** The text behind a line feed is split by itself. */
  lemma {:induction false} SplitApart(a: string, b: string)
    ensures TextLines(a + "\n" + b) == Pieces(a) + TextLines(b)
    decreases |a|
  {
    hide TextLines;
    NoLines();
    if Unbroken(a) {
      UnbrokenFirst(a, b);
      UnbrokenFirst(a, "");
      assert a + "\n" + "" == a + "\n";
    } else {
      var j := BreakAt(a, 0);
      if a[j] == '\r' && j + 1 == |a| {
        CarriageReturnLast(a, b);
        CarriageReturnLast(a, "");
        assert a + "\n" + "" == a + "\n";
      } else {
        var k := BreakEnd(a, j);
        BreakInside(a, "\n" + b, j, k);
        BreakInside(a, "\n", j, k);
        SplitApart(a[k..], b);
        assert a + ("\n" + b) == a + "\n" + b && a[k..] + ("\n" + b) == a[k..] + "\n" + b;
        Assoc([a[..j]], Pieces(a[k..]), TextLines(b));
      }
    }
  }

  lemma CarriageReturnLast(a: string, b: string)
    requires !Unbroken(a) && a[BreakAt(a, 0)] == '\r' && BreakAt(a, 0) + 1 == |a|
    ensures TextLines(a + "\n" + b) == [a[..|a| - 1]] + TextLines(b)
  {
    var j, s := |a| - 1, a + "\n" + b;
    assert s == a + ("\n" + b);
    BreakBefore(a, "\n" + b);
    assert s[j] == '\r' && s[j + 1] == '\n' && s[..j] == a[..j] && s[j + 2..] == b;
  }

  /** The offset behind the break at `j`. */
  function BreakEnd(s: string, j: nat): nat
    requires j < |s|
  {
    if s[j] == '\r' && j + 1 < |s| && s[j + 1] == '\n' then j + 2 else j + 1
  }

  lemma TextLinesAt(s: string, j: nat)
    requires j == BreakAt(s, 0) < |s|
    ensures TextLines(s) == [s[..j]] + TextLines(s[BreakEnd(s, j)..])
  {
    hide BreakAt, IsBreak;
  }

  lemma BreakInside(a: string, rest: string, j: nat, k: nat)
    requires !Unbroken(a) && j == BreakAt(a, 0) && (a[j] == '\r' ==> j + 1 < |a|)
    requires k == BreakEnd(a, j)
    ensures TextLines(a + rest) == [a[..j]] + TextLines(a[k..] + rest)
  {
    hide TextLines;
    BreakBefore(a, rest);
    var s := a + rest;
    assert s[j] == a[j] && s[..j] == a[..j] && s[k..] == a[k..] + rest;
    assert j + 1 < |a| ==> s[j + 1] == a[j + 1];
    TextLinesAt(s, j);
  }

  lemma {:induction false} TextIsPieces(lines: seq<string>)
    ensures TextLines(Terminated(lines)) == PiecesOf(lines)
  {
    hide TextLines;
    if lines == [] {
      NoLines();
    } else {
      SplitApart(lines[0], Terminated(lines[1..]));
      TextIsPieces(lines[1..]);
    }
  }

  lemma {:induction false} PiecesAppend(a: seq<string>, b: seq<string>)
    ensures PiecesOf(a + b) == PiecesOf(a) + PiecesOf(b)
  {
    hide Pieces;
    if a == [] {
      assert a + b == b;
    } else {
      AppendPeels(a, b);
      PiecesAppend(a[1..], b);
      Assoc(Pieces(a[0]), PiecesOf(a[1..]), PiecesOf(b));
    }
  }

  lemma {:induction false} UnbrokenPieces(lines: seq<string>)
    requires AllUnbroken(lines)
    ensures PiecesOf(lines) == lines
  {
    if lines == [] {
    } else {
      assert lines[0] in lines;
      UnbrokenIsOnePiece(lines[0]);
      UnbrokenPieces(lines[1..]);
    }
  }

  lemma UnbrokenIsOnePiece(line: string)
    requires Unbroken(line)
    ensures Pieces(line) == [line]
  {
    NoLines();
    UnbrokenFirst(line, "");
    assert line + "\n" + "" == line + "\n";
  }

  // ---- what stands behind the first break of a printed line ----

  /** The pieces behind the first one. */
  function Extra(t: string): seq<string> {
    Pieces(t)[1..]
  }

  /** No break, but for a carriage return at the end. */
  predicate Whole(t: string) {
    Unbroken(t) || (t != "" && t[|t| - 1] == '\r' && Unbroken(t[..|t| - 1]))
  }

  lemma BreakBehind(a: string, u: string)
    requires Unbroken(a)
    ensures BreakAt(a + u, 0) == |a| + BreakAt(u, 0)
  {
    var s, j := a + u, BreakAt(u, 0);
    forall k | 0 <= k < |a| + j ensures !IsBreak(s[k]) {
      if k < |a| { assert s[k] == a[k] && a[k] in a; } else { assert s[k] == u[k - |a|]; }
    }
    BreakAtIs(s, |a| + j);
  }

  /** Text in front without a break belongs to the first piece. */
  lemma PiecesBehind(a: string, t: string)
    requires Unbroken(a)
    ensures Pieces(a + t) == [a + Pieces(t)[0]] + Extra(t)
  {
    hide TextLines, BreakAt, Unbroken;
    var u, s := t + "\n", a + t + "\n";
    assert s == a + u;
    BreakBehind(a, u);
    EndsInBreak(t);
    var j := BreakAt(u, 0);
    TextLinesAt(u, j);
    TextLinesAt(s, |a| + j);
    assert s[..|a| + j] == a + u[..j];
    var k := BreakEnd(u, j);
    assert BreakEnd(s, |a| + j) == |a| + k && s[|a| + k..] == u[k..];
  }

  lemma EndsInBreak(t: string)
    ensures BreakAt(t + "\n", 0) <= |t|
  {
    assert (t + "\n")[|t|] == '\n' && IsBreak('\n');
  }

  lemma WholeIfBreakIsLast(t: string)
    requires !Unbroken(t)
    ensures Whole(t) <==> BreakAt(t, 0) + 1 == |t| && t[|t| - 1] == '\r'
  {
    var j := BreakAt(t, 0);
    if j < |t| - 1 {
      assert t[..|t| - 1][j] == t[j] && IsBreak(t[j]);
    } else {
      forall c | c in t[..|t| - 1] ensures !IsBreak(c) {
        var k :| 0 <= k < |t| - 1 && t[k] == c;
      }
    }
  }

  /** A line is one piece exactly when nothing but a final carriage return breaks it. */
  lemma OnePieceIffWhole(t: string)
    ensures Extra(t) == [] <==> Whole(t)
  {
    hide TextLines;
    NoLines();
    if Unbroken(t) {
      UnbrokenIsOnePiece(t);
    } else {
      var j := BreakAt(t, 0);
      WholeIfBreakIsLast(t);
      if t[j] == '\r' && j + 1 == |t| {
        CarriageReturnLast(t, "");
        assert t + "\n" + "" == t + "\n";
      } else {
        var k := BreakEnd(t, j);
        BreakInside(t, "\n", j, k);
        assert Pieces(t) == [t[..j]] + Pieces(t[k..]);
      }
    }
  }

  /** A line that the reader takes for context. */
  predicate IsPlain(line: string) {
    !StartsWith(line, GIT_HEADER) && !StartsWith(line, "+") && !StartsWith(line, "-") && !StartsWith(line, "\\") &&
    !StartsWith(line, "@@")
  }

  /** Whatever a break leaves behind is taken for context. */
  predicate PlainExtra(t: string) {
    forall p :: p in Extra(t) ==> IsPlain(p)
  }

  lemma PlainStep(st: ReaderState, line: string)
    requires IsPlain(line)
    ensures Step(st, line) == st.(oldLine := st.oldLine + 1, newLine := st.newLine + 1)
  {
    MarkBegins(line, '+');
    MarkBegins(line, '-');
  }

  lemma MarkBegins(line: string, c: char)
    ensures StartsWith(line, [c, c, c]) ==> StartsWith(line, [c])
  {
    if StartsWith(line, [c, c, c]) {
      HasAtChar(line, 0, [c, c, c], 0);
      assert line[0..1] == [c];
    }
  }

  /** Each piece of a broken context line counts as a line: every later number of the hunk is too high by the others. */
  lemma {:induction false} BrokenContextShifts(st: ReaderState, pieces: seq<string>)
    requires forall p :: p in pieces ==> IsPlain(p)
    ensures Run(st, pieces) == st.(oldLine := st.oldLine + |pieces|, newLine := st.newLine + |pieces|)
    decreases |pieces|
  {
    hide Step;
    if pieces == [] {
    } else {
      assert pieces[0] in pieces;
      PlainStep(st, pieces[0]);
      BrokenContextShifts(Step(st, pieces[0]), pieces[1..]);
    }
  }

  // ---- the condition ----

  predicate IsEdit(op: Op) {
    op.Del? || op.Ins?
  }

  predicate WholeOp(op: Op) {
    op.Keep? ==> Whole(op.text)
  }

  predicate WholeBefore(ops: seq<Op>, i: nat)
    requires i <= |ops|
  {
    forall j :: 0 <= j < i ==> WholeOp(ops[j])
  }

  /** Every edit stands behind whole context lines only. */
  predicate OnTime(ops: seq<Op>, whole: bool) {
    forall i :: 0 <= i < |ops| && IsEdit(ops[i]) ==> whole && WholeBefore(ops, i)
  }

  /** In no hunk does an edit stand behind a broken heading or a broken context line. */
  predicate NoLateEdit(blocks: seq<Block>) {
    forall b :: b in blocks ==> OnTime(b.ops, Whole(b.heading))
  }

  predicate PlainOp(op: Op) {
    op.Keep? ==> PlainExtra(op.text)
  }

  predicate PlainBlock(b: Block) {
    PlainExtra(b.heading) && forall op :: op in b.ops ==> PlainOp(op)
  }

  /** The old path holds no break, and what breaks leave of meta lines is inert, of the rest plain. */
  predicate PlainFrame(c: FileChange) {
    Unbroken(c.oldPath) && (forall m :: m in PiecesOf(c.meta) ==> InertMeta(m)) &&
    forall b :: b in c.blocks ==> PlainBlock(b)
  }

  lemma WholeBeforeStep(op: Op, rest: seq<Op>, i: nat)
    requires i <= |rest|
    ensures WholeBefore([op] + rest, i + 1) <==> WholeOp(op) && WholeBefore(rest, i)
  {
    hide WholeOp;
    var ops := [op] + rest;
    assert ops[0] == op && forall j :: 0 <= j < i ==> ops[j + 1] == rest[j];
    assert forall j :: 0 < j < i + 1 ==> ops[j] == rest[j - 1];
  }

  lemma OnTimeRest(op: Op, rest: seq<Op>, whole: bool)
    requires OnTime([op] + rest, whole)
    ensures (IsEdit(op) ==> whole) && OnTime(rest, whole && WholeOp(op))
  {
    hide IsEdit, WholeOp, WholeBefore;
    var ops := [op] + rest;
    assert ops[0] == op;
    forall i | 0 <= i < |rest| && IsEdit(rest[i]) ensures whole && WholeOp(op) && WholeBefore(rest, i) {
      assert ops[i + 1] == rest[i];
      WholeBeforeStep(op, rest, i);
    }
  }

  lemma OnTimeCons(op: Op, rest: seq<Op>, whole: bool)
    requires (IsEdit(op) ==> whole) && OnTime(rest, whole && WholeOp(op))
    ensures OnTime([op] + rest, whole)
  {
    hide IsEdit, WholeOp, WholeBefore;
    var ops := [op] + rest;
    forall i | 0 <= i < |ops| && IsEdit(ops[i]) ensures whole && WholeBefore(ops, i) {
      if i > 0 {
        assert ops[i] == rest[i - 1];
        WholeBeforeStep(op, rest, i - 1);
      } else {
        NothingIsWhole(ops);
      }
    }
  }

  lemma NothingIsWhole(ops: seq<Op>)
    ensures WholeBefore(ops, 0)
  {}

  lemma OnTimeStep(op: Op, rest: seq<Op>, whole: bool)
    ensures OnTime([op] + rest, whole) <==> (IsEdit(op) ==> whole) && OnTime(rest, whole && WholeOp(op))
  {
    hide OnTime, IsEdit, WholeOp;
    if OnTime([op] + rest, whole) {
      OnTimeRest(op, rest, whole);
    } else if (IsEdit(op) ==> whole) && OnTime(rest, whole && WholeOp(op)) {
      OnTimeCons(op, rest, whole);
    }
  }

  // ---- reading lines and reading pieces, side by side ----

  predicate SameLines(a: ReaderState, b: ReaderState) {
    a.files == b.files && a.path == b.path && a.removed == b.removed && a.added == b.added &&
    |a.removedNos| == |b.removedNos| && |a.addedNos| == |b.addedNos|
  }

  predicate SameNos(a: ReaderState, b: ReaderState) {
    a.removedNos == b.removedNos && a.addedNos == b.addedNos
  }

  predicate Shifted(a: ReaderState, b: ReaderState, shift: nat) {
    b.oldLine == a.oldLine + shift && b.newLine == a.newLine + shift
  }

  lemma SnocEqual<T>(a: seq<T>, b: seq<T>, x: T, y: T)
    requires |a| == |b|
    ensures a + [x] == b + [y] <==> a == b && x == y
  {
    assert (a + [x])[..|a|] == a && (b + [y])[..|b|] == b;
    assert (a + [x])[|a|] == x && (b + [y])[|b|] == y;
  }

  lemma EditTogether(a: ReaderState, b: ReaderState, op: Op, shift: nat)
    requires SameLines(a, b) && Shifted(a, b, shift) && IsEdit(op)
    ensures var a1, b1 := Step(a, BodyLine(op)), Step(b, BodyLine(op));
      SameLines(a1, b1) && Shifted(a1, b1, shift) && (Visible(op) ==> (SameNos(a1, b1) <==> SameNos(a, b) && shift == 0))
  {
    hide Step, BodyLine, Seen, After;
    BodyStep(a, op);
    BodyStep(b, op);
    SeenOne(op);
    AfterOne(a, op);
    AfterOne(b, op);
    AfterNone(a);
    AfterNone(b);
    SnocEqual(a.removedNos, b.removedNos, a.oldLine, b.oldLine);
    SnocEqual(a.addedNos, b.addedNos, a.newLine, b.newLine);
  }

  lemma KeepTogether(a: ReaderState, b: ReaderState, t: string, shift: nat)
    requires SameLines(a, b) && Shifted(a, b, shift) && PlainExtra(t)
    ensures var a1, b1 := Step(a, BodyLine(Keep(t))), Run(b, Pieces(BodyLine(Keep(t))));
      SameLines(a1, b1) && Shifted(a1, b1, shift + |Extra(t)|) && (SameNos(a1, b1) <==> SameNos(a, b))
  {
    hide Step, After, Run, Extra, Pieces, IsPlain;
    var first, more := Pieces(t)[0], Extra(t);
    SpaceIsUnbroken();
    PiecesBehind(" ", t);
    KeepStep(a, t);
    AfterOne(a, Keep(t));
    KeepStep(b, first);
    AfterOne(b, Keep(first));
    RunCons(b, BodyLine(Keep(first)), more);
    BrokenContextShifts(Step(b, BodyLine(Keep(first))), more);
  }

  lemma SpaceIsUnbroken()
    ensures Unbroken(" ")
  {}

  lemma RunSingle(st: ReaderState, line: string)
    ensures Run(st, [line]) == Step(st, line)
  {
    hide Step;
    assert [line][1..] == [];
  }

  lemma OpTogether(a: ReaderState, b: ReaderState, op: Op, shift: nat) returns (more: nat)
    requires SameLines(a, b) && Shifted(a, b, shift) && PlainOp(op) && (IsEdit(op) ==> Unbroken(op.text))
    ensures var a1, b1 := Step(a, BodyLine(op)), Run(b, Pieces(BodyLine(op)));
      SameLines(a1, b1) && Shifted(a1, b1, shift + more) && (more == 0 <==> WholeOp(op)) &&
      (Visible(op) ==> (SameNos(a1, b1) <==> SameNos(a, b) && (IsEdit(op) ==> shift == 0)))
  {
    hide Step, After, Run, Extra, Pieces, IsPlain, Unbroken, Whole, PlainExtra;
    if op.Keep? {
      KeepTogether(a, b, op.text, shift);
      OnePieceIffWhole(op.text);
      more := |Extra(op.text)|;
    } else {
      more := 0;
      BodyLineIsUnbroken(op);
      UnbrokenIsOnePiece(BodyLine(op));
      RunSingle(b, BodyLine(op));
      if op.NoEol? {
        NoEolStep(a);
        NoEolStep(b);
        AfterOne(a, op);
        AfterOne(b, op);
      } else {
        EditTogether(a, b, op, shift);
      }
    }
  }

  lemma BodyLineIsUnbroken(op: Op)
    requires !op.Keep? && (IsEdit(op) ==> Unbroken(op.text))
    ensures Unbroken(BodyLine(op))
  {
    hide Unbroken;
    CommaIsUnbroken();
    if !op.NoEol? {
      JoinUnbroken(if op.Del? then "-" else "+", op.text);
    }
  }

  predicate EditsOf(ops: seq<Op>) {
    forall op :: op in ops && IsEdit(op) ==> Unbroken(op.text)
  }

  lemma FirstOp(ops: seq<Op>)
    requires ops != []
    ensures ops[0] in ops && ops == [ops[0]] + ops[1..]
    ensures forall op :: op in ops[1..] ==> op in ops
    ensures Body(ops) == [BodyLine(ops[0])] + Body(ops[1..])
    ensures PiecesOf(Body(ops)) == Pieces(BodyLine(ops[0])) + PiecesOf(Body(ops[1..]))
  {
    hide BodyLine, Pieces;
    PiecesAppend([BodyLine(ops[0])], Body(ops[1..]));
    assert [BodyLine(ops[0])][1..] == [];
    assert PiecesOf([BodyLine(ops[0])]) == Pieces(BodyLine(ops[0])) + [];
  }

  lemma {:induction false} BodyTogether(a: ReaderState, b: ReaderState, ops: seq<Op>, shift: nat)
    requires SameLines(a, b) && Shifted(a, b, shift) && EditsOf(ops) && forall op :: op in ops ==> PlainOp(op)
    ensures var a1, b1 := Run(a, Body(ops)), Run(b, PiecesOf(Body(ops)));
      SameLines(a1, b1) && (AllVisible(ops) ==> (SameNos(a1, b1) <==> SameNos(a, b) && OnTime(ops, shift == 0)))
    decreases |ops|
  {
    hide Step, BodyLine, Pieces, PlainOp, Unbroken, OnTime, IsEdit, WholeOp, Visible, SameLines, SameNos, Shifted;
    if ops == [] {
      NoOps(a, shift == 0);
      NoOps(b, shift == 0);
    } else {
      hide Run, Body, PiecesOf;
      var op, rest := ops[0], ops[1..];
      FirstOp(ops);
      var more := OpTogether(a, b, op, shift);
      var a1, b1 := Step(a, BodyLine(op)), Run(b, Pieces(BodyLine(op)));
      RunCons(a, BodyLine(op), Body(rest));
      RunAppend(b, Pieces(BodyLine(op)), PiecesOf(Body(rest)));
      BodyTogether(a1, b1, rest, shift + more);
      OnTimeStep(op, rest, shift == 0);
      assert shift + more == 0 <==> shift == 0 && WholeOp(op);
    }
  }

  lemma NoOps(st: ReaderState, whole: bool)
    ensures Run(st, Body([])) == st && Run(st, PiecesOf(Body([]))) == st && OnTime([], whole)
  {}

  // ---- hunks ----

  /** The first piece of a hunk line is the line of the same hunk under the first piece of its heading. */
  lemma HunkPieces(b: Block, before: nat, after: nat)
    ensures Pieces(HunkLine(b, before, after)) ==
      [HunkLine(b.(heading := Pieces(b.heading)[0]), before, after)] + Extra(b.heading)
  {
    hide Pieces, Unbroken, Range, Extra, Image;
    var bare := HunkLine(b.(heading := ""), before, after);
    CommaIsUnbroken();
    EmptyIsUnbroken();
    HunkLineIsUnbroken(b.(heading := ""), before, after);
    PiecesBehind(bare, b.heading);
    HeadingIsLast(b, b.heading, before, after);
    HeadingIsLast(b, Pieces(b.heading)[0], before, after);
  }

  lemma EmptyIsUnbroken()
    ensures Unbroken("")
  {}

  lemma HeadingIsLast(b: Block, heading: string, before: nat, after: nat)
    ensures HunkLine(b.(heading := heading), before, after) == HunkLine(b.(heading := ""), before, after) + heading
  {
    hide Range, Image;
  }

  lemma JoinUnbroken(a: string, b: string)
    ensures Unbroken(a + b) <==> Unbroken(a) && Unbroken(b)
  {
    hide IsBreak;
    assert forall c :: c in a + b <==> c in a || c in b;
  }

  lemma NumberIsUnbroken(n: nat)
    ensures Unbroken(ShowNat(n))
  {
    var ds := ShowNat(n);
    forall c | c in ds ensures !IsBreak(c) {
      var k :| 0 <= k < |ds| && ds[k] == c;
      assert IsDigit(ds[k]);
    }
  }

  lemma RangeIsUnbroken(before: nat, count: nat)
    ensures Unbroken(Range(before, count))
  {
    hide ShowNat, Unbroken;
    var n := FirstLine(before, count);
    NumberIsUnbroken(n);
    NumberIsUnbroken(count);
    CommaIsUnbroken();
    JoinUnbroken(ShowNat(n), ",");
    JoinUnbroken(ShowNat(n) + ",", ShowNat(count));
  }

  lemma CommaIsUnbroken()
    ensures Unbroken(",") && Unbroken("@@ -") && Unbroken(" +") && Unbroken(" @@")
    ensures Unbroken(" ") && Unbroken("-") && Unbroken("+")
    ensures Unbroken("\\ No newline at end of file")
  {}

  lemma HunkLineIsUnbroken(b: Block, before: nat, after: nat)
    requires Unbroken(b.heading)
    ensures Unbroken(HunkLine(b, before, after))
  {
    hide Range, Unbroken, Image;
    var r, s := Range(before, |Image(b.ops, Old)|), Range(after, |Image(b.ops, New)|);
    RangeIsUnbroken(before, |Image(b.ops, Old)|);
    RangeIsUnbroken(after, |Image(b.ops, New)|);
    CommaIsUnbroken();
    JoinUnbroken("@@ -", r);
    JoinUnbroken("@@ -" + r, " +");
    JoinUnbroken("@@ -" + r + " +", s);
    JoinUnbroken("@@ -" + r + " +" + s, " @@");
    JoinUnbroken("@@ -" + r + " +" + s + " @@", b.heading);
  }

  lemma HunkTogether(a: ReaderState, b: ReaderState, block: Block, before: nat, after: nat)
    requires SameLines(a, b) && PlainExtra(block.heading)
    ensures var a1, b1 := Step(a, HunkLine(block, before, after)), Run(b, Pieces(HunkLine(block, before, after)));
      SameLines(a1, b1) && Shifted(a1, b1, |Extra(block.heading)|) && (SameNos(a1, b1) <==> SameNos(a, b))
  {
    hide Step, HunkLine, Run, Extra, Pieces, Image, IsPlain;
    var first, more := block.(heading := Pieces(block.heading)[0]), Extra(block.heading);
    HunkPieces(block, before, after);
    HunkStep(a, block, before, after);
    HunkStep(b, first, before, after);
    RunCons(b, HunkLine(first, before, after), more);
    BrokenContextShifts(Step(b, HunkLine(first, before, after)), more);
  }

  lemma BlockTogether(a: ReaderState, b: ReaderState, block: Block, before: nat, after: nat)
    requires SameLines(a, b) && PlainBlock(block) && EditsOf(block.ops)
    ensures var lines := [HunkLine(block, before, after)] + Body(block.ops);
      var a1, b1 := Run(a, lines), Run(b, PiecesOf(lines));
      SameLines(a1, b1) &&
      (AllVisible(block.ops) ==> (SameNos(a1, b1) <==> SameNos(a, b) && OnTime(block.ops, Whole(block.heading))))
  {
    hide Step, HunkLine, Run, Extra, Pieces, PlainExtra, PlainOp, OnTime, Whole, EditsOf, AllVisible, Body;
    hide SameLines, SameNos, Shifted;
    var line := HunkLine(block, before, after);
    var a1, b1 := Step(a, line), Run(b, Pieces(line));
    HunkTogether(a, b, block, before, after);
    RunCons(a, line, Body(block.ops));
    PiecesCons(line, Body(block.ops));
    RunAppend(b, Pieces(line), PiecesOf(Body(block.ops)));
    BodyTogether(a1, b1, block.ops, |Extra(block.heading)|);
    OnePieceIffWhole(block.heading);
  }

  lemma PiecesCons(line: string, rest: seq<string>)
    ensures PiecesOf([line] + rest) == Pieces(line) + PiecesOf(rest)
  {
    hide Pieces;
    assert ([line] + rest)[1..] == rest;
  }

  predicate PlainBlocks(blocks: seq<Block>) {
    forall b :: b in blocks ==> PlainBlock(b) && EditsOf(b.ops)
  }

  lemma FirstBlock(blocks: seq<Block>)
    requires blocks != []
    ensures NoLateEdit(blocks) <==> OnTime(blocks[0].ops, Whole(blocks[0].heading)) && NoLateEdit(blocks[1..])
    ensures AllBlocksVisible(blocks) <==> AllVisible(blocks[0].ops) && AllBlocksVisible(blocks[1..])
    ensures PlainBlocks(blocks) ==> PlainBlock(blocks[0]) && EditsOf(blocks[0].ops) && PlainBlocks(blocks[1..])
  {
    hide OnTime, Whole, AllVisible, PlainBlock, EditsOf;
    assert blocks == [blocks[0]] + blocks[1..];
    assert forall b :: b in blocks <==> b == blocks[0] || b in blocks[1..];
  }

  lemma {:induction false} BlocksTogether(a: ReaderState, b: ReaderState, blocks: seq<Block>, before: nat, after: nat)
    requires SameLines(a, b) && PlainBlocks(blocks)
    ensures var a1, b1 := Run(a, BlockLines(blocks, before, after)), Run(b, PiecesOf(BlockLines(blocks, before, after)));
      SameLines(a1, b1) && (AllBlocksVisible(blocks) ==> (SameNos(a1, b1) <==> SameNos(a, b) && NoLateEdit(blocks)))
    decreases |blocks|
  {
    hide Run, HunkLine, Body, Image, BlockLines, PiecesOf, SameLines, SameNos;
    hide PlainBlocks, NoLateEdit, AllBlocksVisible, AllVisible, OnTime, Whole, PlainBlock, EditsOf;
    if blocks == [] {
      NoBlocks(a, before, after);
      NoBlocks(b, before, after);
    } else {
      var block, rest := blocks[0], blocks[1..];
      var o, n := before + |block.gap|, after + |block.gap|;
      var o1, n1 := o + |Image(block.ops, Old)|, n + |Image(block.ops, New)|;
      var lines, more := [HunkLine(block, o, n)] + Body(block.ops), BlockLines(rest, o1, n1);
      FirstBlock(blocks);
      BlockLinesStep(blocks, before, after);
      BlockTogether(a, b, block, o, n);
      RunAppend(a, lines, more);
      PiecesAppend(lines, more);
      RunAppend(b, PiecesOf(lines), PiecesOf(more));
      BlocksTogether(Run(a, lines), Run(b, PiecesOf(lines)), rest, o1, n1);
    }
  }

  lemma NoBlocks(st: ReaderState, before: nat, after: nat)
    ensures Run(st, BlockLines([], before, after)) == st && Run(st, PiecesOf(BlockLines([], before, after))) == st
    ensures NoLateEdit([])
  {}

  lemma BlockLinesStep(blocks: seq<Block>, before: nat, after: nat)
    requires blocks != []
    ensures var b, o, n := blocks[0], before + |blocks[0].gap|, after + |blocks[0].gap|;
      BlockLines(blocks, before, after) ==
        [HunkLine(b, o, n)] + Body(b.ops) + BlockLines(blocks[1..], o + |Image(b.ops, Old)|, n + |Image(b.ops, New)|)
  {
    hide HunkLine, Body, Image;
  }

  // ---- files ----

  lemma {:induction false} UnbrokenOwn(ops: seq<Op>)
    ensures EditsOf(ops) <==> AllUnbroken(Own(ops, Old)) && AllUnbroken(Own(ops, New))
  {
    if ops == [] {
    } else {
      hide Unbroken;
      var op, rest := ops[0], ops[1..];
      UnbrokenOwn(rest);
      assert ops == [op] + rest && forall o :: o in ops <==> o == op || o in rest;
      OwnPeels(ops, Old);
      OwnPeels(ops, New);
      JoinedUnbroken(OwnShare(op, Old), Own(rest, Old));
      JoinedUnbroken(OwnShare(op, New), Own(rest, New));
    }
  }

  lemma JoinedUnbroken(a: seq<string>, b: seq<string>)
    ensures AllUnbroken(a + b) <==> AllUnbroken(a) && AllUnbroken(b)
  {
    hide Unbroken;
    assert forall l :: l in a + b <==> l in a || l in b;
  }

  lemma {:induction false} BlocksUnbroken(blocks: seq<Block>, tail: seq<string>)
    requires AllUnbroken(Own(Script(blocks, tail), Old)) && AllUnbroken(Own(Script(blocks, tail), New))
    ensures forall b :: b in blocks ==> EditsOf(b.ops)
  {
    hide Own, AllUnbroken, EditsOf, Script;
    if blocks == [] {
    } else {
      var ops, rest := blocks[0].ops, Script(blocks[1..], tail);
      ScriptOwn(blocks, tail, Old);
      ScriptOwn(blocks, tail, New);
      JoinedUnbroken(Own(ops, Old), Own(rest, Old));
      JoinedUnbroken(Own(ops, New), Own(rest, New));
      UnbrokenOwn(ops);
      BlocksUnbroken(blocks[1..], tail);
    }
  }

  lemma HeadersAreUnbroken(c: FileChange)
    requires Unbroken(c.oldPath) && Unbroken(c.newPath)
    ensures Unbroken(Header(c.oldPath, c.newPath)) && Unbroken("--- a/" + c.oldPath) && Unbroken("+++ b/" + c.newPath)
  {
    hide Unbroken;
    MarksAreUnbroken();
    JoinUnbroken("diff --git a/", c.oldPath);
    JoinUnbroken("diff --git a/" + c.oldPath, " b/");
    JoinUnbroken("diff --git a/" + c.oldPath + " b/", c.newPath);
    JoinUnbroken("--- a/", c.oldPath);
    JoinUnbroken("+++ b/", c.newPath);
  }

  lemma MarksAreUnbroken()
    ensures Unbroken("diff --git a/") && Unbroken(" b/") && Unbroken("--- a/") && Unbroken("+++ b/")
  {}

  function Head(c: FileChange, meta: seq<string>): seq<string> {
    [Header(c.oldPath, c.newPath)] + meta + ["--- a/" + c.oldPath, "+++ b/" + c.newPath]
  }

  lemma HeadPieces(c: FileChange)
    requires Unbroken(c.oldPath) && Unbroken(c.newPath)
    ensures PiecesOf(Head(c, c.meta)) == Head(c, PiecesOf(c.meta))
  {
    hide Pieces, Unbroken, Header;
    HeadersAreUnbroken(c);
    var header, marks := [Header(c.oldPath, c.newPath)], ["--- a/" + c.oldPath, "+++ b/" + c.newPath];
    PiecesAppend(header + c.meta, marks);
    PiecesAppend(header, c.meta);
    UnbrokenPieces(header);
    UnbrokenPieces(marks);
  }

  /** The report that the text of a file's diff gives. */
  lemma FileTextRun(st: ReaderState, c: FileChange) returns (d: FileDiff)
    requires WellFormed(c) && PlainFrame(c) && EditsUnbroken(c)
    ensures Flush(Run(st, PiecesOf(FileLines(c)))) == Flush(st) + [d]
    ensures d.path == HeadPath(c) && d.removed == Own(SeenBlocks(c.blocks), Old) && d.added == Own(SeenBlocks(c.blocks), New)
    ensures AllBlocksVisible(c.blocks) ==> (d == Report(c, HeadPath(c)) <==> NoLateEdit(c.blocks))
  {
    hide Run, BlockLines, Header, SeenBlocks, SeenNos, Own, Unbroken, Pieces, PiecesOf, Script, OwnNos, PlainBlock, EditsOf;
    hide NoLateEdit, AllBlocksVisible, InertMeta;
    var pieces := c.(meta := PiecesOf(c.meta));
    assert HeadPath(pieces) == HeadPath(c);
    var a := FileHeadRun(st, c);
    var b := FileHeadRun(st, pieces);
    var lines := BlockLines(c.blocks, 0, 0);
    assert FileLines(c) == Head(c, c.meta) + lines;
    HeadPieces(c);
    PiecesAppend(Head(c, c.meta), lines);
    RunAppend(st, Head(c, PiecesOf(c.meta)), PiecesOf(lines));
    BlocksUnbroken(c.blocks, c.tail);
    BlocksTogether(a, b, c.blocks, 0, 0);
    BlocksRun(a, c.blocks, 0, 0);
    var a1, b1 := Run(a, lines), Run(b, PiecesOf(lines));
    NothingBefore(a, a1, c);
    d := FileDiff(HeadPath(c), b1.removed, b1.added, b1.removedNos, b1.addedNos);
  }

  lemma NothingBefore(a: ReaderState, a1: ReaderState, c: FileChange)
    requires Grown(a, a1, c.blocks, 0, 0) && a.removed == [] && a.added == [] && a.removedNos == [] && a.addedNos == []
    ensures a1.removed == Own(SeenBlocks(c.blocks), Old) && a1.added == Own(SeenBlocks(c.blocks), New)
    ensures a1.removedNos == SeenNos(c.blocks, Old, 0) && a1.addedNos == SeenNos(c.blocks, New, 0)
    ensures a1.files == a.files && a1.path == a.path
  {
    hide Own, SeenBlocks, SeenNos;
  }

  /** The report is the truth exactly when nothing is hidden, recut or late. */
  lemma FileTextReadsBack(st: ReaderState, c: FileChange) returns (d: FileDiff)
    requires WellFormed(c) && PlainFrame(c) && EditsUnbroken(c)
    ensures Flush(Run(st, PiecesOf(FileLines(c)))) == Flush(st) + [d]
    ensures d == Truth(c) <==> Faithful(c) && NoLateEdit(c.blocks)
  {
    hide Run, FileLines, PiecesOf, Flush, PlainFrame, EditsUnbroken, NoLateEdit, Recut, SeenBlocks, Script;
    d := FileTextRun(st, c);
    ReportIsTruth(c);
    PathReadsBack(c.oldPath, c.newPath);
    HeaderHasPath(c.oldPath, c.newPath);
    BlocksCount(c.blocks, c.tail);
  }

  lemma {:induction false} DiffTextRun(st: ReaderState, changes: seq<FileChange>) returns (ds: seq<FileDiff>)
    requires forall c :: c in changes ==> WellFormed(c) && PlainFrame(c) && EditsUnbroken(c)
    ensures Flush(Run(st, PiecesOf(DiffLines(changes)))) == Flush(st) + ds && |ds| == |changes|
    ensures forall i :: 0 <= i < |ds| ==>
      (ds[i] == Truth(changes[i]) <==> Faithful(changes[i]) && NoLateEdit(changes[i].blocks))
    decreases |changes|
  {
    if changes == [] {
      ds := [];
    } else {
      hide Run, FileLines, Flush, PlainFrame, EditsUnbroken, NoLateEdit, Faithful, WellFormed, Truth, PiecesOf;
      var c, rest := changes[0], changes[1..];
      assert c in changes;
      PiecesAppend(FileLines(c), DiffLines(rest));
      RunAppend(st, PiecesOf(FileLines(c)), PiecesOf(DiffLines(rest)));
      var d := FileTextReadsBack(st, c);
      var more := DiffTextRun(Run(st, PiecesOf(FileLines(c))), rest);
      ds := [d] + more;
      Assoc(Flush(st), [d], more);
    }
  }

  lemma {:induction false} TruthAt(changes: seq<FileChange>)
    ensures |Truths(changes)| == |changes| && forall i :: 0 <= i < |changes| ==> Truths(changes)[i] == Truth(changes[i])
  {
    hide Truth;
    if changes == [] {
    } else {
      TruthAt(changes[1..]);
    }
  }

  /**
    From the text of a diff back to the edits. Breaks in context lines, headings and meta lines leave plain
    pieces behind; then the text is read back exactly when no edited line and no new path holds a break, no edit
    is hidden, no path cut again, and no edit stands behind a broken line of its hunk.
   */
  lemma DiffTextReadsBack(changes: seq<FileChange>)
    requires forall c :: c in changes ==> WellFormed(c) && PlainFrame(c)
    ensures FileDiffs(TextLines(Terminated(DiffLines(changes)))) == Truths(changes) <==>
      forall c :: c in changes ==> Faithful(c) && EditsUnbroken(c) && NoLateEdit(c.blocks)
  {
    hide PlainFrame, EditsUnbroken, Faithful, Truths, DiffLines, TextLines, WellFormed, NoLateEdit, Run, Truth;
    var text := Terminated(DiffLines(changes));
    if FileDiffs(TextLines(text)) == Truths(changes) {
      EditsMustBeUnbroken(changes, text);
    }
    if forall c :: c in changes ==> EditsUnbroken(c) {
      TextIsPieces(DiffLines(changes));
      var ds := DiffTextRun(START, changes);
      assert FileDiffs(TextLines(text)) == [] + ds == ds;
      TruthAt(changes);
      assert forall c :: c in changes <==> exists i :: 0 <= i < |changes| && changes[i] == c;
    }
  }

  const FORM_FEED_CHANGE :=
    FileChange("f", "f", [], [Block([], [Keep("a\U{0c}b"), Del("x")], "")], [])

  lemma FormFeedLeavesPlain()
    ensures PlainExtra("a\U{0c}b") && PlainExtra("") && !Whole("a\U{0c}b")
  {
    hide TextLines;
    var t := "a\U{0c}b";
    assert t[1] == '\U{0c}' && IsBreak(t[1]);
    BreakAtIs(t, 1);
    BreakInside(t, "\n", 1, 2);
    UnbrokenIsOnePiece("b");
    UnbrokenIsOnePiece("");
    assert t[2..] == "b";
    assert Pieces(t) == [t[..1]] + ["b"];
    OnePieceIffWhole(t);
  }

  /** A form feed in a context line gives the removed line behind it a wrong number, though no edit is hidden or broken. */
  lemma FormFeedIsMisread()
    ensures var c := FORM_FEED_CHANGE;
      WellFormed(c) && PlainFrame(c) && Faithful(c) && EditsUnbroken(c) &&
      FileDiffs(TextLines(Terminated(DiffLines([c])))) != Truths([c])
  {
    hide PlainExtra, Whole, TextLines, DiffLines, Truths, FileDiffs;
    var c := FORM_FEED_CHANGE;
    var b := c.blocks[0];
    FormFeedLeavesPlain();
    assert forall op :: op in b.ops ==> op == b.ops[0] || op == b.ops[1];
    assert forall other :: other in c.blocks ==> other == b;
    FormFeedIsFaithful();
    assert IsEdit(b.ops[1]) && !WholeOp(b.ops[0]);
    assert !OnTime(b.ops, Whole(b.heading));
    assert c in [c] && b in c.blocks;
    DiffTextReadsBack([c]);
  }

  lemma FormFeedIsFaithful()
    ensures Faithful(FORM_FEED_CHANGE) && EditsUnbroken(FORM_FEED_CHANGE)
  {
    var c := FORM_FEED_CHANGE;
    var b := c.blocks[0];
    assert forall op :: op in b.ops ==> op == b.ops[0] || op == b.ops[1];
    assert forall other :: other in c.blocks ==> other == b;
    hide Script;
    BlocksMatter(b);
    assert Own(b.ops, Old) == ["x"] && Own(b.ops, New) == [];
  }

  lemma BlocksMatter(b: Block)
    requires b.gap == []
    ensures Script([b], []) == b.ops
  {
    assert [b][1..] == [];
    assert KeepAll(b.gap) + b.ops + [] == b.ops;
  }
}
