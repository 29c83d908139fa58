/**
  What a `__file__`-rooted expression denotes on disk, where `..` climbs, and which of the references
  that the gate passes survive a move. Directories are taken to hold no symbolic links.
 */
module PathMoves {
  import opened Wrappers
  import opened Syntax
  import opened PathExpr
  import opened PathTargets
  import opened PathSpelling

  // ---- `..` climbs ----

  predicate NoDots(p: Path) {
    ".." !in p
  }

  /** The directory that a path denotes: each `..` takes the part before it away, and none is above the root. */
  function Collapse(p: Path): (r: Path)
    ensures NoDots(r)
  {
    if p == [] then []
    else
      var front, last := Collapse(p[..|p| - 1]), p[|p| - 1];
      if last == ".." then Parent(front) else front + [last]
  }

  /** The normal form with every `..` carried out; those that nothing precedes become climbs from the anchor. */
  function Fold(n: Norm): (r: Norm)
    ensures r.Rel? <==> n.Rel?
    ensures NoDots(if r.Rel? then r.downs else r.parts)
    ensures n.Rel? ==> n.ups <= r.ups && |r.downs| <= |n.downs|
    decreases if n.Rel? then |n.downs| else 0
  {
    match n
    case Fixed(parts) => Fixed(Collapse(parts))
    case Rel(ups, downs) =>
      if downs == [] then n
      else
        var m, last := Fold(Rel(ups, downs[..|downs| - 1])), downs[|downs| - 1];
        if last == ".." then Pop(m, 1) else Rel(m.ups, m.downs + [last])
  }

  lemma {:induction false} CollapseKeeps(p: Path)
    requires NoDots(p)
    ensures Collapse(p) == p
    decreases |p|
  {
    if p == [] {
    } else {
      var front := p[..|p| - 1];
      assert forall d :: d in front ==> d in p;
      assert p[|p| - 1] in p;
      CollapseKeeps(front);
      assert p == front + [p[|p| - 1]];
    }
  }

  lemma UpHasNoDots(p: Path, hops: nat)
    requires NoDots(p)
    ensures NoDots(Up(p, hops))
  {
    if hops <= |p| {
      assert forall d :: d in p[..|p| - hops] ==> d in p;
    }
  }

  lemma CollapseStep(front: Path, last: string)
    ensures Collapse(front + [last]) == if last == ".." then Parent(Collapse(front)) else Collapse(front) + [last]
  {
    var p := front + [last];
    assert p[..|p| - 1] == front && p[|p| - 1] == last;
  }

  lemma FoldStep(ups: nat, front: seq<string>, last: string)
    ensures Fold(Rel(ups, front + [last])) ==
      var m := Fold(Rel(ups, front));
      if last == ".." then Pop(m, 1) else Rel(m.ups, m.downs + [last])
  {
    var p := front + [last];
    assert p[..|p| - 1] == front && p[|p| - 1] == last;
  }

  /** Collapsing what a normal form gives is running its folded form. */
  lemma {:induction false} FoldIsCollapse(n: Norm, anchor: Path)
    requires NoDots(anchor)
    ensures Collapse(RunNorm(n, anchor)) == RunNorm(Fold(n), anchor)
    decreases if n.Rel? then |n.downs| else 0
  {
    hide Collapse, Fold, Up, Pop;
    match n
    case Fixed(parts) =>
      FixedFolds(parts);
    case Rel(ups, downs) =>
      var base := Up(anchor, ups);
      if downs == [] {
        UpHasNoDots(anchor, ups);
        CollapseKeeps(base);
        NothingFolds(ups);
        assert base + [] == base;
      } else {
        var front, last := downs[..|downs| - 1], downs[|downs| - 1];
        var m := Fold(Rel(ups, front));
        assert downs == front + [last];
        assert base + downs == (base + front) + [last];
        FoldIsCollapse(Rel(ups, front), anchor);
        CollapseStep(base + front, last);
        FoldStep(ups, front, last);
        PopIsParent(m, anchor);
        assert Up(anchor, m.ups) + (m.downs + [last]) == Up(anchor, m.ups) + m.downs + [last];
      }
  }

  lemma FixedFolds(parts: seq<string>)
    ensures Fold(Fixed(parts)) == Fixed(Collapse(parts))
  {}

  lemma NothingFolds(ups: nat)
    ensures Fold(Rel(ups, [])) == Rel(ups, [])
  {}

  lemma PopIsParent(m: Norm, anchor: Path)
    ensures RunNorm(Pop(m, 1), anchor) == Parent(RunNorm(m, anchor))
  {
    PopIsUp(m, 1, anchor);
  }

  // ---- evaluation on disk ----

  predicate CollapsesCall(call: Node)
    requires ArityOk(call) && call.kind.Call?
  {
    IsResolveCall(call) || (IsPathCall(call) && FuncName(call.kids[0]) != Some("Path"))
  }

  /** The path that the expression has at run time: as `_resolve` computes it, but `resolve`, `abspath` and `normpath` collapse. */
  function Real(e: Node, anchor: Path): (r: Option<Path>)
    requires WellFormed(e)
    ensures r.Some? <==> NormOf(e).Some?
  {
    match e.kind
    case Name(id, _) => if id == "__file__" then Some(anchor) else None
    case Attribute(attr) =>
      var base := Real(e.kids[0], anchor);
      if base.None? then None
      else if attr == "parent" then Some(Parent(base.value))
      else if attr == "resolve" || attr == "absolute" then base
      else None
    case Subscript =>
      var target := e.kids[0];
      if !IsParents(target) then None
      else
        assert WellFormed(target);
        var base := Real(target.kids[0], anchor);
        var n := ConstInt(e.kids[1]);
        if base.None? || n.None? then None else Some(Up(base.value, Hops(n.value)))
    case BinOp(div) =>
      if !div then None
      else
        var base := Real(e.kids[0], anchor);
        var literal := ConstStr(e.kids[1]);
        if base.None? || literal.None? then None else Some(Join(base.value, literal.value))
    case Call(_) =>
      if IsResolveCall(e) then
        assert WellFormed(e.kids[0]);
        var base := Real(e.kids[0].kids[0], anchor);
        if base.None? then None else Some(Collapse(base.value))
      else if IsPathCall(e) then
        var base := Real(e.kids[1], anchor);
        if base.None? then None else if CollapsesCall(e) then Some(Collapse(base.value)) else base
      else if IsDirnameCall(e) then
        var base := Real(e.kids[1], anchor);
        if base.None? then None else Some(Parent(base.value))
      else None
    case _ => None
  }

  /** The normal form of that evaluation. */
  function RealNorm(e: Node): (r: Option<Norm>)
    requires WellFormed(e)
    ensures r.Some? <==> NormOf(e).Some?
  {
    match e.kind
    case Name(id, _) => if id == "__file__" then Some(Rel(0, [])) else None
    case Attribute(attr) =>
      var base := RealNorm(e.kids[0]);
      if base.None? then None
      else if attr == "parent" then Some(Pop(base.value, 1))
      else if attr == "resolve" || attr == "absolute" then base
      else None
    case Subscript =>
      var target := e.kids[0];
      if !IsParents(target) then None
      else
        assert WellFormed(target);
        var base := RealNorm(target.kids[0]);
        var n := ConstInt(e.kids[1]);
        if base.None? || n.None? then None else Some(Pop(base.value, Hops(n.value)))
    case BinOp(div) =>
      if !div then None
      else
        var base := RealNorm(e.kids[0]);
        var literal := ConstStr(e.kids[1]);
        if base.None? || literal.None? then None else Some(Push(base.value, literal.value))
    case Call(_) =>
      if IsResolveCall(e) then
        assert WellFormed(e.kids[0]);
        var base := RealNorm(e.kids[0].kids[0]);
        if base.None? then None else Some(Fold(base.value))
      else if IsPathCall(e) then
        var base := RealNorm(e.kids[1]);
        if base.None? then None else if CollapsesCall(e) then Some(Fold(base.value)) else base
      else if IsDirnameCall(e) then
        var base := RealNorm(e.kids[1]);
        if base.None? then None else Some(Pop(base.value, 1))
      else None
    case _ => None
  }

  lemma {:induction false} RealIsNorm(e: Node, anchor: Path)
    requires WellFormed(e) && NoDots(anchor)
    ensures Real(e, anchor) == match RealNorm(e) case None => None case Some(n) => Some(RunNorm(n, anchor))
    decreases e
  {
    match e.kind
    case Name(_, _) =>
      assert Up(anchor, 0) + [] == anchor;
    case Attribute(attr) =>
      RealIsNorm(e.kids[0], anchor);
      if RealNorm(e.kids[0]).Some? { PopIsUp(RealNorm(e.kids[0]).value, 1, anchor); }
    case Subscript =>
      if IsParents(e.kids[0]) {
        assert WellFormed(e.kids[0]);
        var x := e.kids[0].kids[0];
        RealIsNorm(x, anchor);
        if RealNorm(x).Some? && ConstInt(e.kids[1]).Some? {
          PopIsUp(RealNorm(x).value, Hops(ConstInt(e.kids[1]).value), anchor);
        }
      }
    case BinOp(_) =>
      RealIsNorm(e.kids[0], anchor);
      if RealNorm(e.kids[0]).Some? && ConstStr(e.kids[1]).Some? {
        PushIsJoin(RealNorm(e.kids[0]).value, ConstStr(e.kids[1]).value, anchor);
      }
    case Call(_) =>
      assert WellFormed(e.kids[0]);
      if IsResolveCall(e) {
        RealIsNorm(e.kids[0].kids[0], anchor);
        if RealNorm(e.kids[0].kids[0]).Some? { FoldIsCollapse(RealNorm(e.kids[0].kids[0]).value, anchor); }
      } else if IsPathCall(e) || IsDirnameCall(e) {
        RealIsNorm(e.kids[1], anchor);
        if RealNorm(e.kids[1]).Some? {
          FoldIsCollapse(RealNorm(e.kids[1]).value, anchor);
          PopIsUp(RealNorm(e.kids[1]).value, 1, anchor);
        }
      }
    case _ =>
  }

  // ---- what the expression denotes ----

  /** The directory or file that the expression denotes when `__file__` is at `anchor`. */
  function Denoted(e: Node, anchor: Path): Path
    requires WellFormed(e) && NormOf(e).Some?
  {
    Collapse(Real(e, anchor).value)
  }

  /** Its normal form: where it goes from the anchor, all `..` carried out. */
  function TrueNorm(e: Node): Norm
    requires WellFormed(e) && NormOf(e).Some?
  {
    Fold(RealNorm(e).value)
  }

  lemma DenotedIsTrueNorm(e: Node, anchor: Path)
    requires WellFormed(e) && NormOf(e).Some? && NoDots(anchor)
    ensures Denoted(e, anchor) == RunNorm(TrueNorm(e), anchor)
  {
    hide Real, RealNorm, Fold, Collapse, RunNorm, NormOf;
    RealIsNorm(e, anchor);
    FoldIsCollapse(RealNorm(e).value, anchor);
  }

  /**
    The resolver returns the denoted directory from every anchor exactly when its normal form is the
    true one, so not when a literal climbs by `..`.
   */
  lemma ResolvesRightlyIff(e: Node)
    requires WellFormed(e) && NormOf(e).Some?
    ensures (forall anchor :: NoDots(anchor) ==> Resolve(e, anchor) == Some(Denoted(e, anchor))) <==>
      NormOf(e).value == TrueNorm(e)
  {
    hide Resolve, Denoted, RunNorm, NormOf, TrueNorm;
    forall anchor | NoDots(anchor)
      ensures Resolve(e, anchor) == Some(RunNorm(NormOf(e).value, anchor))
      ensures Denoted(e, anchor) == RunNorm(TrueNorm(e), anchor)
    {
      ResolveIsNorm(e, anchor);
      DenotedIsTrueNorm(e, anchor);
    }
    if NormOf(e).value != TrueNorm(e) {
      var anchor := DifferentNorms(NormOf(e).value, TrueNorm(e));
      assert NoDots(anchor);
      assert Resolve(e, anchor) != Some(Denoted(e, anchor));
    }
  }

  // ---- moves ----

  /** After the home directory has become `dest`, the reference denotes what it denoted, moved along. */
  predicate Survives(e: Node, home: Path, dest: Path, rest: Path)
    requires WellFormed(e) && NormOf(e).Some?
  {
    var target := Denoted(e, home + rest);
    Inside(home, target) && Denoted(e, dest + rest) == Rebase(home, dest, target)
  }

  ghost predicate SurvivesEveryMove(e: Node, home: Path, rest: Path)
    requires WellFormed(e) && NormOf(e).Some?
  {
    forall dest :: NoDots(dest) ==> Survives(e, home, dest, rest)
  }

  /** The expression goes to no fixed place and climbs no higher than its home. */
  predicate StaysLow(e: Node, rest: Path)
    requires WellFormed(e) && NormOf(e).Some?
  {
    TrueNorm(e).Rel? && TrueNorm(e).ups <= |rest|
  }

  /** A reference survives every move of its home exactly when, all `..` carried out, it climbs no higher than the home. */
  lemma SurvivesIffLow(e: Node, home: Path, rest: Path)
    requires WellFormed(e) && NormOf(e).Some? && home != [] && NoDots(home + rest)
    ensures SurvivesEveryMove(e, home, rest) <==> StaysLow(e, rest)
  {
    hide Denoted, NormOf, TrueNorm, RunNorm;
    DotsOfParts(home, rest);
    var n := TrueNorm(e);
    DenotedIsTrueNorm(e, home + rest);
    if StaysLow(e, rest) {
      LowSurvives(e, home, rest);
    } else if !Inside(home, Denoted(e, home + rest)) {
      assert !Survives(e, home, home, rest);
    } else {
      var dest := MoveShows(n, home, rest);
      DotsOfParts(dest, rest);
      DenotedIsTrueNorm(e, dest + rest);
      assert !Survives(e, home, dest, rest);
    }
  }

  lemma DotsOfParts(a: Path, b: Path)
    ensures NoDots(a + b) <==> NoDots(a) && NoDots(b)
  {
    assert forall d :: d in a + b <==> d in a || d in b;
  }

  lemma LowSurvives(e: Node, home: Path, rest: Path)
    requires WellFormed(e) && NormOf(e).Some? && NoDots(home) && NoDots(rest) && StaysLow(e, rest)
    ensures SurvivesEveryMove(e, home, rest)
  {
    hide Denoted, NormOf, TrueNorm, RunNorm;
    var n := TrueNorm(e);
    DotsOfParts(home, rest);
    DenotedIsTrueNorm(e, home + rest);
    InsideWhenLow(n, home, rest);
    forall dest | NoDots(dest) ensures Survives(e, home, dest, rest) {
      DotsOfParts(dest, rest);
      DenotedIsTrueNorm(e, dest + rest);
      InsideWhenLow(n, dest, rest);
      var tail := Up(rest, n.ups) + n.downs;
      assert (home + tail)[|home|..] == tail;
    }
  }

  /** A destination that shows a climb, or a fixed place. */
  lemma MoveShows(n: Norm, home: Path, rest: Path) returns (dest: Path)
    requires (n.Rel? ==> n.ups > |rest|) && Inside(home, RunNorm(n, home + rest)) && home != []
    ensures NoDots(dest) && RunNorm(n, dest + rest) != Rebase(home, dest, RunNorm(n, home + rest))
  {
    if n.Rel? {
      dest := ClimbShows(n, home, rest);
    } else {
      dest := seq(|home| + 1, _ => "d");
      assert |Rebase(home, dest, n.parts)| == |n.parts| + 1;
    }
  }

  // ---- the gate ----

  /** The gate passes the target that the resolver computes. */
  predicate Passes(e: Node, path: Path, testsDir: Path)
    requires WellFormed(e) && NormOf(e).Some? && Inside(testsDir, Parent(path))
  {
    ResolveIsNorm(e, path);
    !Flags(Resolve(e, path).value, path, testsDir)
  }

  /** A file of a bucket under the tests directory. */
  predicate InBucket(path: Path, testsDir: Path) {
    NoDots(path) && Inside(testsDir, Parent(path)) && OwnHome(path, testsDir).Some?
  }

  lemma BucketParts(path: Path, testsDir: Path)
    requires InBucket(path, testsDir)
    ensures var home := OwnHome(path, testsDir).value;
            home != [] && Inside(home, path) && path == home + path[|home|..]
  {
    var home := OwnHome(path, testsDir).value;
    assert path[..|home|] == Parent(path)[..|home|];
  }

  /**
    What the gate misses: it passes a reference that some move breaks exactly when the path that it
    computes, with `..` as an ordinary part, lies in the home, but the reference climbs out of the home
    by `.parent` or `..`, or goes to a fixed place.
   */
  lemma PassedAndBrokenIff(e: Node, path: Path, testsDir: Path)
    requires WellFormed(e) && NormOf(e).Some? && InBucket(path, testsDir)
    ensures var home, n := OwnHome(path, testsDir).value, TrueNorm(e);
            var rest := path[|home|..];
            Passes(e, path, testsDir) && !SurvivesEveryMove(e, home, rest) <==>
            Inside(home, RunNorm(NormOf(e).value, path)) && (n.Fixed? || n.ups > |rest|)
  {
    hide NormOf, TrueNorm, RunNorm, SurvivesEveryMove, Resolve, Flags;
    var home := OwnHome(path, testsDir).value;
    BucketParts(path, testsDir);
    ResolveIsNorm(e, path);
    GateIsInside(Resolve(e, path).value, path, testsDir);
    SurvivesIffLow(e, home, path[|home|..]);
  }

  /** What the evaluation on disk climbs more and descends less than the resolver thinks. */
  predicate Beneath(t: Norm, l: Norm) {
    (t.Rel? <==> l.Rel?) && (t.Rel? ==> l.ups <= t.ups && |t.downs| <= |l.downs|)
  }

  lemma BeneathPop(t: Norm, l: Norm, hops: nat)
    requires Beneath(t, l)
    ensures Beneath(Pop(t, hops), Pop(l, hops))
  {}

  lemma BeneathPush(t: Norm, l: Norm, s: string)
    requires Beneath(t, l)
    ensures Beneath(Push(t, s), Push(l, s))
  {}

  lemma {:induction false} RealIsBeneath(e: Node)
    requires WellFormed(e) && NormOf(e).Some?
    ensures Beneath(RealNorm(e).value, NormOf(e).value)
    decreases e
  {
    hide Pop, Push, Fold;
    match e.kind
    case Name(_, _) =>
    case Attribute(attr) =>
      RealIsBeneath(e.kids[0]);
      BeneathPop(RealNorm(e.kids[0]).value, NormOf(e.kids[0]).value, 1);
    case Subscript =>
      assert WellFormed(e.kids[0]);
      var x := e.kids[0].kids[0];
      RealIsBeneath(x);
      BeneathPop(RealNorm(x).value, NormOf(x).value, Hops(ConstInt(e.kids[1]).value));
    case BinOp(_) =>
      RealIsBeneath(e.kids[0]);
      BeneathPush(RealNorm(e.kids[0]).value, NormOf(e.kids[0]).value, ConstStr(e.kids[1]).value);
    case Call(_) =>
      assert WellFormed(e.kids[0]);
      if IsResolveCall(e) {
        RealIsBeneath(e.kids[0].kids[0]);
      } else {
        RealIsBeneath(e.kids[1]);
        BeneathPop(RealNorm(e.kids[1]).value, NormOf(e.kids[1]).value, 1);
      }
  }

  /** The gate raises no false alarm: a reference that survives every move is passed. */
  lemma SafeIsPassed(e: Node, path: Path, testsDir: Path)
    requires WellFormed(e) && NormOf(e).Some? && InBucket(path, testsDir)
    requires var home := OwnHome(path, testsDir).value;
             SurvivesEveryMove(e, home, path[|home|..])
    ensures Passes(e, path, testsDir)
  {
    hide NormOf, RealNorm, RunNorm, SurvivesEveryMove, Resolve, Flags, Fold;
    var home := OwnHome(path, testsDir).value;
    var rest := path[|home|..];
    BucketParts(path, testsDir);
    SurvivesIffLow(e, home, rest);
    RealIsBeneath(e);
    InsideWhenLow(NormOf(e).value, home, rest);
    ResolveIsNorm(e, path);
    GateIsInside(Resolve(e, path).value, path, testsDir);
  }

  // ---- literals without `..` ----

  /** No literal joined on the way holds `..`. */
  predicate DotFree(e: Node)
    requires WellFormed(e) && NormOf(e).Some?
  {
    e.kind.Name? || ((e.kind.BinOp? ==> NoDots(Parts(ConstStr(e.kids[1]).value))) && DotFree(SpineBase(e)))
  }

  predicate HasNoDots(n: Norm) {
    NoDots(if n.Rel? then n.downs else n.parts)
  }

  lemma {:induction false} FoldKeeps(n: Norm)
    requires HasNoDots(n)
    ensures Fold(n) == n
    decreases if n.Rel? then |n.downs| else 0
  {
    if n.Fixed? {
      CollapseKeeps(n.parts);
    } else if n.downs == [] {
    } else {
      var front, last := n.downs[..|n.downs| - 1], n.downs[|n.downs| - 1];
      assert n.downs == front + [last] && last in n.downs;
      DotsOfParts(front, [last]);
      FoldKeeps(Rel(n.ups, front));
      FoldStep(n.ups, front, last);
    }
  }

  lemma PopHasNoDots(n: Norm, hops: nat)
    requires HasNoDots(n)
    ensures HasNoDots(Pop(n, hops))
  {
    UpHasNoDots(if n.Rel? then n.downs else n.parts, hops);
  }

  lemma PushHasNoDots(n: Norm, s: string)
    requires HasNoDots(n) && NoDots(Parts(s))
    ensures HasNoDots(Push(n, s))
  {
    DotsOfParts(if n.Rel? then n.downs else n.parts, Parts(s));
  }

  /** Then the resolver computes what the expression denotes. */
  lemma {:induction false} DotFreeIsLexical(e: Node)
    requires WellFormed(e) && NormOf(e).Some? && DotFree(e)
    ensures RealNorm(e) == NormOf(e) && HasNoDots(NormOf(e).value) && TrueNorm(e) == NormOf(e).value
    decreases e
  {
    hide Pop, Push, Fold;
    if e.kind.Name? {
      FoldKeeps(Rel(0, []));
    } else {
      var b := SpineBase(e);
      DotFreeIsLexical(b);
      NormFromBase(e);
      RealFromBase(e);
      FoldKeeps(NormOf(b).value);
      var n := NormOf(b).value;
      PopHasNoDots(n, 1);
      if e.kind.Subscript? {
        PopHasNoDots(n, Hops(ConstInt(e.kids[1]).value));
      } else if e.kind.BinOp? {
        PushHasNoDots(n, ConstStr(e.kids[1]).value);
      }
      FoldKeeps(NormOf(e).value);
    }
  }

  /** One step of the evaluation on disk along the spine. */
  lemma RealFromBase(e: Node)
    requires WellFormed(e) && NormOf(e).Some? && !e.kind.Name?
    ensures var b := RealNorm(SpineBase(e)).value;
            RealNorm(e).value ==
              (if e.kind.BinOp? then Push(b, ConstStr(e.kids[1]).value)
               else if e.kind.Subscript? then Pop(b, Hops(ConstInt(e.kids[1]).value))
               else if e.kind.Call? && CollapsesCall(e) then Fold(b)
               else if (e.kind.Attribute? && e.kind.attr == "parent") || (e.kind.Call? && !IsPathCall(e)) then Pop(b, 1)
               else b)
  {
    hide Pop, Push, Fold;
    assert forall k :: k in e.kids ==> WellFormed(k);
  }

  /** With relative literals that do not climb: a reference survives every move exactly when no step of it leaves the home. */
  lemma MoveSafety(e: Node, home: Path, rest: Path)
    requires WellFormed(e) && NormOf(e).Some? && RelativeLiterals(e) && DotFree(e) && home != [] && NoDots(home + rest)
    ensures SpineInside(e, home, home + rest) <==> SurvivesEveryMove(e, home, rest)
  {
    hide SpineInside, SurvivesEveryMove, NormOf, TrueNorm, RelativeLiterals, DotFree;
    RelativeIsRel(e);
    DotFreeIsLexical(e);
    SpineInsideIsLow(e, home, rest);
    SurvivesIffLow(e, home, rest);
  }

  /** For such an expression that ends in a climb, the gate is exact. */
  lemma GateExactForClimbs(e: Node, path: Path, testsDir: Path)
    requires WellFormed(e) && NormOf(e).Some? && RelativeLiterals(e) && DotFree(e) && InBucket(path, testsDir)
    requires NormOf(e).value.Rel? ==> NormOf(e).value.downs == []
    ensures var home := OwnHome(path, testsDir).value;
            Passes(e, path, testsDir) <==> SurvivesEveryMove(e, home, path[|home|..])
  {
    hide SurvivesEveryMove, NormOf, TrueNorm, RelativeLiterals, DotFree, Resolve, Flags;
    var home, n := OwnHome(path, testsDir).value, NormOf(e).value;
    var rest := path[|home|..];
    BucketParts(path, testsDir);
    RelativeIsRel(e);
    DotFreeIsLexical(e);
    PassedAndBrokenIff(e, path, testsDir);
    if n.ups > |rest| {
      OutsideWhenHigh(n, home, rest);
    }
    SurvivesIffLow(e, home, rest);
    ResolveIsNorm(e, path);
    GateIsInside(Resolve(e, path).value, path, testsDir);
    if n.ups <= |rest| {
      InsideWhenLow(n, home, rest);
    }
  }

  // ---- witnesses ----

  lemma SlashNorm(x: Node, literal: string)
    requires WellFormed(x) && NormOf(x).Some?
    ensures WellFormed(Slash(x, literal))
    ensures NormOf(Slash(x, literal)) == Some(Push(NormOf(x).value, literal))
    ensures RealNorm(Slash(x, literal)) == Some(Push(RealNorm(x).value, literal))
  {
    hide Push;
  }

  lemma HereIsAnchor()
    ensures NormOf(Here()) == Some(Rel(0, [])) && RealNorm(Here()) == Some(Rel(0, []))
  {}

  /** `Path(__file__)` climbed n + 1 times. */
  lemma ClimbNorm(n: nat)
    ensures var up := ParentChain(Here(), n + 1);
            WellFormed(up) && NormOf(up) == Some(Rel(n + 1, [])) && RealNorm(up) == Some(Rel(n + 1, []))
  {
    hide NormOf, RealNorm, ParentChain, Here;
    HereIsAnchor();
    ParentChainPops(Here(), n);
    ChainIsReal(Here(), n + 1);
  }

  /** `Path(__file__).parent.parent / "bucket"` in `bucket/x.py`: passed by the gate, broken by a move. */
  lemma ClimbOutAndBack(testsDir: Path, bucket: string, file: string)
    requires IsPart(bucket) && NoDots(testsDir + [bucket, file])
    ensures var e, path := Slash(ParentChain(Here(), 2), bucket), testsDir + [bucket, file];
            WellFormed(e) && NormOf(e).Some? && InBucket(path, testsDir) && Passes(e, path, testsDir)
            && !SurvivesEveryMove(e, OwnHome(path, testsDir).value, [file])
  {
    hide NormOf, RealNorm, Fold, Slash, ParentChain, Here, Parts, Passes, SurvivesEveryMove, InBucket, OwnHome;
    var e, path := Slash(ParentChain(Here(), 2), bucket), testsDir + [bucket, file];
    NameIsPart(bucket);
    ClimbNorm(1);
    SlashNorm(ParentChain(Here(), 2), bucket);
    BucketOf(testsDir, bucket, file);
    DotsOfParts(testsDir, [bucket, file]);
    assert bucket in [bucket, file] && [] + [bucket] == [bucket];
    FoldKeeps(Rel(2, [bucket]));
    assert Up(path, 2) == testsDir;
    PassedAndBrokenIff(e, path, testsDir);
  }

  lemma NameIsPart(p: string)
    requires IsPart(p)
    ensures Parts(p) == [p] && !IsAbsolute(p)
  {
    OnePart(p);
    assert p[0] in p;
  }

  lemma BucketOf(testsDir: Path, bucket: string, file: string)
    requires NoDots(testsDir + [bucket, file])
    ensures var path := testsDir + [bucket, file];
            InBucket(path, testsDir) && OwnHome(path, testsDir) == Some(testsDir + [bucket])
            && path[|testsDir| + 1..] == [file]
  {
    var path := testsDir + [bucket, file];
    var home := testsDir + [bucket];
    assert Parent(path) == home && home[..|testsDir| + 1] == home && |home| == |testsDir| + 1;
  }

  lemma {:induction false} ChainIsReal(x: Node, n: nat)
    requires WellFormed(x) && RealNorm(x) == NormOf(x) && NormOf(x).Some?
    ensures RealNorm(ParentChain(x, n)) == NormOf(ParentChain(x, n))
  {
    if n == 0 {
    } else {
      ChainIsReal(x, n - 1);
    }
  }

  /** `Path(__file__).parent / ".." / "peer"` in `bucket/x.py` denotes the peer directory, and the gate passes it. */
  lemma DotDotEscapes(testsDir: Path, bucket: string, peer: string, file: string)
    requires IsPart(peer) && peer != ".." && NoDots(testsDir + [bucket, file])
    ensures var e, path := Slash(Slash(ParentChain(Here(), 1), ".."), peer), testsDir + [bucket, file];
            WellFormed(e) && NormOf(e).Some? && InBucket(path, testsDir) && Passes(e, path, testsDir)
            && Denoted(e, path) == testsDir + [peer] && !SurvivesEveryMove(e, OwnHome(path, testsDir).value, [file])
  {
    hide NormOf, RealNorm, TrueNorm, Slash, ParentChain, Here, Parts, Passes, SurvivesEveryMove, InBucket, OwnHome, Denoted;
    var path, home := testsDir + [bucket, file], testsDir + [bucket];
    var e := Slash(Slash(ParentChain(Here(), 1), ".."), peer);
    NameIsPart(peer);
    DotDotNorm(peer);
    BucketOf(testsDir, bucket, file);
    assert path[..|path| - 1] == home && path[..|path| - 2] == testsDir;
    assert RunNorm(Rel(1, ["..", peer]), path) == home + ["..", peer];
    DenotedIsTrueNorm(e, path);
    PassedAndBrokenIff(e, path, testsDir);
  }

  lemma DotDotNorm(peer: string)
    requires Parts(peer) == [peer] && !IsAbsolute(peer) && peer != ".."
    ensures var e := Slash(Slash(ParentChain(Here(), 1), ".."), peer);
            WellFormed(e) && NormOf(e) == Some(Rel(1, ["..", peer])) && TrueNorm(e) == Rel(2, [peer])
  {
    hide NormOf, RealNorm, Fold, Slash, ParentChain, Here, Parts;
    var up := ParentChain(Here(), 1);
    ClimbNorm(0);
    DotDotIsKept([]);
    SlashNorm(up, "..");
    SlashNorm(Slash(up, ".."), peer);
    assert [] + [".."] == [".."] && [".."] + [peer] == ["..", peer] && [] + [peer] == [peer];
    NothingFolds(1);
    FoldStep(1, [], "..");
    FoldStep(1, [".."], peer);
  }
}
