/** The maximal `__file__`-rooted chains of a file, and what the two scripts conclude from them. */
module PathTargets {
  import opened Wrappers
  import opened Syntax
  import opened PathExpr

  // ---- which nodes are reported ----

  predicate IsChainNode(n: Node) {
    n.kind.Attribute? || n.kind.Subscript? || n.kind.BinOp? || n.kind.Call?
  }

  predicate Resolves(root: Node, a: Address, anchor: Path)
    requires WellFormed(root) && HasNode(root, a)
  {
    Resolve(At(root, a), anchor).Some?
  }

  /** A chain node that resolves while its parent node does not. */
  predicate Reported(root: Node, a: Address, anchor: Path)
    requires WellFormed(root) && HasNode(root, a)
  {
    IsChainNode(At(root, a)) && Resolves(root, a, anchor)
    && (a == [] || (AtParent(root, a); !Resolves(root, a[..|a| - 1], anchor)))
  }

  function Target(root: Node, a: Address, anchor: Path): Path
    requires WellFormed(root) && HasNode(root, a) && Resolves(root, a, anchor)
  {
    Resolve(At(root, a), anchor).value
  }

  /** Insertion into an insertion-ordered set. */
  function Insert(seen: seq<Path>, p: Path): seq<Path> {
    if p in seen then seen else seen + [p]
  }

  function TargetsOf(root: Node, order: seq<Address>, anchor: Path): (r: seq<Path>)
    requires WellFormed(root) && AllNodes(root, order)
    ensures forall i, j :: 0 <= i < j < |r| ==> r[i] != r[j]
    ensures forall p :: p in r <==> exists a :: a in order && Reported(root, a, anchor) && Target(root, a, anchor) == p
  {
    if order == [] then []
    else
      var last := order[|order| - 1];
      assert last in order;
      var seen := TargetsOf(root, order[..|order| - 1], anchor);
      assert order == order[..|order| - 1] + [last];
      if Reported(root, last, anchor) then Insert(seen, Target(root, last, anchor)) else seen
  }

  /** `parents` maps nodes to their parents, and all children of `done` are in it. */
  ghost predicate ParentsOf(root: Node, done: seq<Address>, parents: map<Address, Address>)
    requires AllNodes(root, done)
  {
    (forall c :: c in parents ==> c != [] && parents[c] == c[..|c| - 1])
    && forall a, c :: a in done && c in Children(root, a) ==> c in parents
  }

  /** The loop that fills the `parents` dictionary. */
  method FillParents(root: Node, order: seq<Address>) returns (parents: map<Address, Address>)
    requires AllNodes(root, order)
    ensures ParentsOf(root, order, parents)
  {
    parents := map[];
    for i := 0 to |order|
      invariant AllNodes(root, order[..i]) && ParentsOf(root, order[..i], parents)
    {
      var a := order[i];
      assert a in order && order[..i + 1] == order[..i] + [a];
      var children := Children(root, a);
      for k := 0 to |children|
        invariant ParentsOf(root, order[..i], parents)
        invariant forall m :: 0 <= m < k ==> children[m] in parents
      {
        assert children[k] == a + [k];
        parents := parents[children[k] := a];
      }
      assert forall c :: c in children ==> c in parents;
    }
    assert order[..|order|] == order;
  }

  /** `parse_file_relative_targets` on a parsed file. */
  method ParseFileRelativeTargets(root: Node, anchor: Path) returns (seen: seq<Path>)
    requires WellFormed(root)
    ensures seen == TargetsOf(root, Walk(root, []), anchor)
  {
    hide Walk, ParentsOf, Resolve, At, WellFormed;
    var order := Walk(root, []);
    var parents := FillParents(root, order);
    seen := [];
    for i := 0 to |order|
      invariant AllNodes(root, order[..i]) && seen == TargetsOf(root, order[..i], anchor)
    {
      var a := order[i];
      assert a in order && order[..i + 1] == order[..i] + [a];
      assert order[..i + 1][..i] == order[..i];
      HasParentEntry(root, order, parents, a);
      var node := At(root, a);
      if IsChainNode(node) {
        var target := Resolve(node, anchor);
        if target.Some? {
          if a !in parents || Resolve(At(root, parents[a]), anchor).None? {
            seen := Insert(seen, target.value);
          }
        }
      }
    }
    assert order[..|order|] == order;
  }

  /** The loop over all nodes gave every node but the root its parent. */
  lemma HasParentEntry(root: Node, order: seq<Address>, parents: map<Address, Address>, a: Address)
    requires WellFormed(root) && order == Walk(root, []) && a in order
    requires ParentsOf(root, order, parents)
    ensures a in parents <==> a != []
    ensures a in parents ==> parents[a] == a[..|a| - 1] && HasNode(root, parents[a])
  {
    if a != [] {
      AtParent(root, a);
      var p := a[..|a| - 1];
      WalkCovers(root, [], p);
      assert p in order;
      assert Children(root, p)[a[|a| - 1]] == a;
    }
  }

  /** The result holds each reported chain's target once, and nothing else. */
  lemma TargetsAreReported(root: Node, anchor: Path, p: Path)
    requires WellFormed(root)
    ensures p in TargetsOf(root, Walk(root, []), anchor)
       <==> exists a :: HasNode(root, a) && Reported(root, a, anchor) && Target(root, a, anchor) == p
  {
    hide Walk, Reported, Resolve;
    forall a ensures a in Walk(root, []) <==> HasNode(root, a) {
      WalkCovers(root, [], a);
    }
  }

  // ---- coverage ----

  predicate AllResolve(root: Node, a: Address, b: Address, anchor: Path)
    requires WellFormed(root) && HasNode(root, b) && Below(a, b)
  {
    forall n :: |a| <= n <= |b| ==> HasNode(root, b[..n]) && Resolves(root, b[..n], anchor)
  }

  /** Every resolvable chain node has a reported node at or above it, with only resolvable nodes between. */
  lemma {:induction false} Covered(root: Node, b: Address, anchor: Path) returns (a: Address)
    requires WellFormed(root) && HasNode(root, b) && IsChainNode(At(root, b)) && Resolves(root, b, anchor)
    ensures Below(a, b) && HasNode(root, a) && Reported(root, a, anchor) && AllResolve(root, a, b, anchor)
    decreases |b|
  {
    a := b;
    assert b[..|b|] == b;
    if Reported(root, b, anchor) {
    } else {
      AtParent(root, b);
      var up := b[..|b| - 1];
      assert At(root, up).kids != [];
      a := Covered(root, up, anchor);
      forall n | |a| <= n <= |b| ensures HasNode(root, b[..n]) && Resolves(root, b[..n], anchor) {
        if n < |b| { assert up[..n] == b[..n]; }
      }
    }
  }

  // ---- the spine ----

  /** The child whose path a resolvable expression is built on. */
  function SpineChild(e: Node): nat
    requires WellFormed(e) && |e.kids| > 0
  {
    if e.kind.Call? && !IsResolveCall(e) then 1 else 0
  }

  /** One step down the spine of a resolvable expression. */
  lemma SpineStep(e: Node, anchor: Path)
    requires WellFormed(e) && Resolve(e, anchor).Some? && |e.kids| > 0
    ensures SpineChild(e) < |e.kids|
    ensures var c := e.kids[SpineChild(e)];
            if e.kind.Subscript? then Resolve(c, anchor).None? && IsParents(c) && Resolve(c.kids[0], anchor).Some?
            else Resolve(c, anchor).Some?
  {
    assert forall k :: k in e.kids ==> WellFormed(k);
  }

  /** `b` is reached from `a` by spine steps. */
  predicate OnSpine(root: Node, a: Address, b: Address)
    requires WellFormed(root)
  {
    HasNode(root, b) && Below(a, b) &&
    forall n :: |a| <= n < |b| && HasNode(root, b[..n]) && At(root, b[..n]).kids != [] ==>
      b[n] == SpineChild(At(root, b[..n]))
  }

  /** The node is the `.parents` of an index that resolves. */
  predicate IsIndexed(root: Node, b: Address, anchor: Path)
    requires WellFormed(root) && HasNode(root, b)
  {
    b != [] && b[|b| - 1] == 0 && IsParents(At(root, b)) &&
    (AtParent(root, b); At(root, b[..|b| - 1]).kind.Subscript? && Resolves(root, b[..|b| - 1], anchor))
  }

  /** On the spine of a resolvable node everything resolves but the `.parents` of its indices. */
  lemma {:induction false} SpineResolves(root: Node, a: Address, b: Address, anchor: Path)
    requires WellFormed(root) && HasNode(root, a) && Resolves(root, a, anchor) && OnSpine(root, a, b)
    ensures Resolves(root, b, anchor) <==> !IsIndexed(root, b, anchor)
    decreases |b|
  {
    hide Resolve;
    if a == b {
      IndexedIsUnresolved(root, b, anchor);
    } else {
      var up, last := b[..|b| - 1], b[|b| - 1];
      SpineShrinks(root, a, b);
      SpineResolves(root, a, up, anchor);
      AtParent(root, b);
      var e := At(root, up);
      assert last == SpineChild(e);
      if Resolves(root, up, anchor) {
        SpineStep(e, anchor);
        IndexedIsUnresolved(root, b, anchor);
      } else {
        AtParent(root, up);
        SpineStep(At(root, up[..|up| - 1]), anchor);
      }
    }
  }

  lemma SpineShrinks(root: Node, a: Address, b: Address)
    requires WellFormed(root) && OnSpine(root, a, b) && a != b
    ensures OnSpine(root, a, b[..|b| - 1]) && At(root, b[..|b| - 1]).kids != []
    ensures b[|b| - 1] == SpineChild(At(root, b[..|b| - 1]))
  {
    var up := b[..|b| - 1];
    AtParent(root, b);
    forall n | |a| <= n < |up| ensures up[..n] == b[..n] {}
    assert up[..|a|] == b[..|a|];
  }

  lemma IndexedIsUnresolved(root: Node, b: Address, anchor: Path)
    requires WellFormed(root) && HasNode(root, b)
    ensures IsIndexed(root, b, anchor) ==> !Resolves(root, b, anchor)
  {
  }

  /** Below a resolvable node, a chain of its spine is reported exactly when it is the base of an index. */
  lemma ReportedIffIndexed(root: Node, a: Address, b: Address, anchor: Path)
    requires WellFormed(root) && HasNode(root, a) && Resolves(root, a, anchor) && OnSpine(root, a, b) && a != b
    requires IsChainNode(At(root, b)) && Resolves(root, b, anchor)
    ensures b != [] && HasNode(root, b[..|b| - 1])
    ensures Reported(root, b, anchor) <==> IsIndexed(root, b[..|b| - 1], anchor)
  {
    hide Resolve;
    AtParent(root, b);
    SpineShrinks(root, a, b);
    SpineResolves(root, a, b[..|b| - 1], anchor);
  }

  /**
    Only maximal chains are promised. A chain that is not maximal on its own spine is reported all the
    same exactly when it is the base of an index `.parents[n]` that resolves.
   */
  lemma ReportedBelowIff(root: Node, b: Address, anchor: Path)
    requires WellFormed(root) && HasNode(root, b) && Reported(root, b, anchor)
    ensures (exists a :: a != b && HasNode(root, a) && Resolves(root, a, anchor) && OnSpine(root, a, b)) <==>
      b != [] && (AtParent(root, b); IsIndexed(root, b[..|b| - 1], anchor))
  {
    hide Resolve;
    if a :| a != b && HasNode(root, a) && Resolves(root, a, anchor) && OnSpine(root, a, b) {
      SpineShrinks(root, a, b);
      SpineResolves(root, a, b[..|b| - 1], anchor);
    }
    if b != [] {
      AtParent(root, b);
      if IsIndexed(root, b[..|b| - 1], anchor) {
        IndexIsAbove(root, b, anchor);
      }
    }
  }

  /** The base of an index lies on the spine of the index. */
  lemma IndexIsAbove(root: Node, b: Address, anchor: Path)
    requires WellFormed(root) && HasNode(root, b) && b != [] && HasNode(root, b[..|b| - 1])
    requires IsIndexed(root, b[..|b| - 1], anchor)
    ensures exists a :: a != b && HasNode(root, a) && Resolves(root, a, anchor) && OnSpine(root, a, b)
  {
    hide Resolve, OnSpine, SpineChild, WellFormed, At, HasNode;
    var up := b[..|b| - 1];
    AtParent(root, b);
    AtParent(root, up);
    var a := up[..|up| - 1];
    TwoDown(a, up, b);
    ParentsHasOneKid(root, up);
    SpineOfTwo(root, a, up, b);
  }

  lemma ParentsHasOneKid(root: Node, up: Address)
    requires WellFormed(root) && HasNode(root, up) && IsParents(At(root, up))
    ensures |At(root, up).kids| == 1
  {}

  lemma TwoDown(a: Address, up: Address, b: Address)
    requires b != [] && up == b[..|b| - 1] && up != [] && a == up[..|up| - 1]
    ensures a != b && Below(a, b) && b[..|a|] == a && b[..|a| + 1] == up && |b| == |a| + 2
    ensures b[|a|] == up[|up| - 1]
  {}

  lemma SpineOfTwo(root: Node, a: Address, up: Address, b: Address)
    requires WellFormed(root) && HasNode(root, a) && HasNode(root, up) && HasNode(root, b)
    requires Below(a, b) && |b| == |a| + 2 && b[..|a|] == a && b[..|a| + 1] == up
    requires At(root, a).kind.Subscript? && At(root, up).kind.Attribute? && b[|a|] == 0 && b[|a| + 1] == 0
    ensures OnSpine(root, a, b)
  {
    hide HasNode;
    forall n | |a| <= n < |b| && HasNode(root, b[..n]) && At(root, b[..n]).kids != []
      ensures b[n] == SpineChild(At(root, b[..n]))
    {
      assert n == |a| || n == |a| + 1;
    }
  }

  /** Off the spine, only arguments of calls resolve; below a call that resolves they are suppressed. */
  lemma ArgumentsAreSuppressed(root: Node, b: Address, anchor: Path)
    requires WellFormed(root) && HasNode(root, b) && b != [] && HasNode(root, b[..|b| - 1])
    requires Resolves(root, b[..|b| - 1], anchor) && Resolves(root, b, anchor)
    requires At(root, b[..|b| - 1]).kids != [] && b[|b| - 1] != SpineChild(At(root, b[..|b| - 1]))
    ensures At(root, b[..|b| - 1]).kind.Call? && !Reported(root, b, anchor)
  {
    hide Resolve, SpineChild, WellFormed;
    AtParent(root, b);
    OnlyArguments(At(root, b[..|b| - 1]), b[|b| - 1], anchor);
  }

  lemma OnlyArguments(e: Node, i: nat, anchor: Path)
    requires WellFormed(e) && Resolve(e, anchor).Some? && i < |e.kids| && i != SpineChild(e)
    requires WellFormed(e.kids[i]) && Resolve(e.kids[i], anchor).Some?
    ensures e.kind.Call?
  {}

  /** The sub-expression whose path `e` is computed from. */
  function SpineBase(e: Node): (b: Node)
    requires WellFormed(e) && NormOf(e).Some? && !e.kind.Name?
    ensures WellFormed(b) && NormOf(b).Some? && b < e
  {
    assert forall k :: k in e.kids ==> WellFormed(k);
    var c := e.kids[SpineChild(e)];
    assert c in e.kids && WellFormed(c) && ArityOk(c);
    if e.kind.Subscript? || (e.kind.Call? && IsResolveCall(e)) then c.kids[0] else c
  }

  // ---- moving the home directory ----

  predicate Inside(home: Path, p: Path) {
    home <= p
  }

  /** `p`, in `home`, after `home` has become `dest`. */
  function Rebase(home: Path, dest: Path, p: Path): Path
    requires Inside(home, p)
  {
    dest + p[|home|..]
  }

  /** Every path computed on the way to `e`'s lies in `home`. */
  predicate SpineInside(e: Node, home: Path, anchor: Path)
    requires WellFormed(e) && NormOf(e).Some?
  {
    ResolveIsNorm(e, anchor);
    Inside(home, Resolve(e, anchor).value) && (e.kind.Name? || SpineInside(SpineBase(e), home, anchor))
  }

  /** All literals joined on the way are relative. */
  predicate RelativeLiterals(e: Node)
    requires WellFormed(e) && NormOf(e).Some?
  {
    e.kind.Name?
    || (!(e.kind.BinOp? && IsAbsolute(ConstStr(e.kids[1]).value)) && RelativeLiterals(SpineBase(e)))
  }

  lemma {:induction false} RelativeIsRel(e: Node)
    requires WellFormed(e) && NormOf(e).Some?
    ensures RelativeLiterals(e) <==> NormOf(e).value.Rel?
    decreases e
  {
    if e.kind.Name? {
    } else {
      RelativeIsRel(SpineBase(e));
      NormFromBase(e);
    }
  }

  /** One step of the normal form along the spine. */
  lemma NormFromBase(e: Node)
    requires WellFormed(e) && NormOf(e).Some? && !e.kind.Name?
    ensures var b := NormOf(SpineBase(e)).value;
            NormOf(e).value ==
              (if e.kind.BinOp? then Push(b, ConstStr(e.kids[1]).value)
               else if e.kind.Subscript? then Pop(b, Hops(ConstInt(e.kids[1]).value))
               else if (e.kind.Attribute? && e.kind.attr == "parent")
                       || (e.kind.Call? && !IsResolveCall(e) && !IsPathCall(e)) then Pop(b, 1)
               else b)
  {
    assert forall k :: k in e.kids ==> WellFormed(k);
  }

  lemma InsideWhenLow(n: Norm, home: Path, rest: Path)
    requires n.Rel? && n.ups <= |rest|
    ensures Inside(home, RunNorm(n, home + rest))
    ensures RunNorm(n, home + rest) == home + (Up(rest, n.ups) + n.downs)
  {
    assert Up(home + rest, n.ups) == home + Up(rest, n.ups);
  }

  lemma OutsideWhenHigh(n: Norm, home: Path, rest: Path)
    requires n.Rel? && n.ups > |rest| && n.downs == [] && home != []
    ensures !Inside(home, RunNorm(n, home + rest))
  {
  }

  /** The spine stays in the home directory exactly when the normal form climbs no higher than the home. */
  lemma {:induction false} SpineInsideIsLow(e: Node, home: Path, rest: Path)
    requires WellFormed(e) && NormOf(e).Some? && NormOf(e).value.Rel? && home != []
    ensures SpineInside(e, home, home + rest) <==> NormOf(e).value.ups <= |rest|
    decreases e
  {
    var n := NormOf(e).value;
    ResolveIsNorm(e, home + rest);
    if e.kind.Name? {
      InsideWhenLow(n, home, rest);
    } else {
      var b := SpineBase(e);
      NormFromBase(e);
      RelativeIsRel(e);
      RelativeIsRel(b);
      SpineInsideIsLow(b, home, rest);
      if n.ups <= |rest| {
        InsideWhenLow(n, home, rest);
      } else if NormOf(b).value.ups <= |rest| {
        OutsideWhenHigh(n, home, rest);
      }
    }
  }

  /** A destination that shows a climb out of the home directory. */
  lemma ClimbShows(n: Norm, home: Path, rest: Path) returns (dest: Path)
    requires n.Rel? && n.ups > |rest| && Inside(home, RunNorm(n, home + rest)) && home != []
    ensures RunNorm(n, dest + rest) != Rebase(home, dest, RunNorm(n, home + rest)) && ".." !in dest
  {
    var target := RunNorm(n, home + rest);
    NotDotDot(if n.downs == [] then "" else n.downs[0]);
    if n.ups <= |home + rest| {
      var j := |home + rest| - n.ups;
      assert target == (home + rest)[..j] + n.downs;
      dest := seq(|home|, _ => n.downs[0] + "d");
      assert RunNorm(n, dest + rest)[j] == n.downs[0];
      assert Rebase(home, dest, target)[j] == n.downs[0] + "d";
      assert |n.downs[0] + "d"| == |n.downs[0]| + 1;
    } else {
      dest := seq(n.ups, _ => "d");
      assert |RunNorm(n, dest + rest)| == |rest| + |n.downs|;
      assert |Rebase(home, dest, target)| == n.ups + |n.downs| - |home|;
    }
  }

  // ---- the static gate ----

  /** `_own_home` for a file somewhere under the tests directory. */
  function OwnHome(path: Path, testsDir: Path): (r: Option<Path>)
    requires Inside(testsDir, Parent(path))
    ensures r.Some? ==> Inside(testsDir, r.value) && Inside(r.value, Parent(path)) && |r.value| == |testsDir| + 1
    ensures r.None? <==> Parent(path) == testsDir
  {
    if Parent(path) == testsDir then None else Some(Parent(path)[..|testsDir| + 1])
  }

  /** The loop body of `_references_a_fixed_tests_location`. */
  predicate Flags(target: Path, path: Path, testsDir: Path)
    requires Inside(testsDir, Parent(path))
  {
    target != path && target != Parent(path)
    && (!Inside(testsDir, target)
        || OwnHome(path, testsDir).None?
        || !Inside(OwnHome(path, testsDir).value, target))
  }

  /** `_references_a_fixed_tests_location` on a parsed file. */
  method ReferencesAFixedTestsLocation(root: Node, path: Path, testsDir: Path) returns (r: bool)
    requires WellFormed(root) && Inside(testsDir, Parent(path))
    ensures r <==> exists t :: t in TargetsOf(root, Walk(root, []), path) && Flags(t, path, testsDir)
  {
    hide Walk, TargetsOf, WellFormed, OwnHome;
    var home := OwnHome(path, testsDir);
    var targets := ParseFileRelativeTargets(root, path);
    for i := 0 to |targets|
      invariant forall t :: t in targets[..i] ==> !Flags(t, path, testsDir)
    {
      var target := targets[i];
      assert target in targets && targets[..i + 1] == targets[..i] + [target];
      if target != path && target != Parent(path) {
        if !Inside(testsDir, target) {
          return true;
        }
        if home.None? || !Inside(home.value, target) {
          return true;
        }
      }
    }
    assert targets[..|targets|] == targets;
    return false;
  }

  /** For a file in a bucket, the gate passes a target exactly when it lies in the bucket. */
  lemma GateIsInside(target: Path, path: Path, testsDir: Path)
    requires Inside(testsDir, Parent(path)) && OwnHome(path, testsDir).Some?
    ensures !Flags(target, path, testsDir) <==> Inside(OwnHome(path, testsDir).value, target)
  {
    var home := OwnHome(path, testsDir).value;
    assert Parent(path) == path[..|path| - 1];
    assert path[..|home|] == Parent(path)[..|home|];
    if Inside(home, target) {
      assert target[..|testsDir|] == home[..|testsDir|];
    }
  }
}
