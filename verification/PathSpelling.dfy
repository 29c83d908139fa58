/** What the resolver makes of path expressions as they are spelled, step by step. */
module PathSpelling {
  import opened Wrappers
  import opened Syntax
  import opened PathExpr
  import opened PathTargets

  // ---- literals ----

  lemma SlashEndIs(s: string, j: nat)
    requires j <= |s| && (forall k :: 0 <= k < j ==> s[k] != '/') && (j < |s| ==> s[j] == '/')
    ensures SlashEnd(s, 0) == j
  {}

  /** A literal without a slash is one part, unless it is empty or a dot. */
  lemma OnePart(p: string)
    requires '/' !in p
    ensures Parts(p) == if p == "" || p == "." then [] else [p]
  {
    forall k | 0 <= k < |p| ensures p[k] != '/' {
      assert p[k] in p;
    }
    SlashEndIs(p, |p|);
    assert p[..|p|] == p;
  }

  lemma PartsStep(head: string, rest: string)
    requires '/' !in head
    ensures Parts(head + "/" + rest) == Parts(head) + Parts(rest)
  {
    var s := head + "/" + rest;
    forall k | 0 <= k < |head| ensures s[k] != '/' {
      assert s[k] == head[k] && head[k] in head;
    }
    SlashEndIs(s, |head|);
    OnePart(head);
    assert s[..|head|] == head && s[|head| + 1..] == rest;
  }

  /** Slashes separate parts. */
  lemma {:induction false} PartsJoin(a: string, b: string)
    ensures Parts(a + "/" + b) == Parts(a) + Parts(b)
    decreases |a|
  {
    hide Parts;
    var j := SlashEnd(a, 0);
    if j == |a| {
      NoSlash(a, j);
      assert a[..j] == a;
      PartsStep(a, b);
    } else {
      var head, rest := a[..j], a[j + 1..];
      NoSlash(a, j);
      assert a == head + "/" + rest;
      PartsStep(head, rest);
      PartsJoin(rest, b);
      PartsStep(head, rest + "/" + b);
      assert a + "/" + b == head + "/" + (rest + "/" + b);
      assert Parts(head) + Parts(rest) + Parts(b) == Parts(head) + (Parts(rest) + Parts(b));
    }
  }

  lemma NoSlash(a: string, j: nat)
    requires j <= |a| && forall k :: 0 <= k < j ==> a[k] != '/'
    ensures '/' !in a[..j]
  {}

  function SlashJoin(names: seq<string>): string {
    if names == [] then "" else names[0] + "/" + SlashJoin(names[1..])
  }

  predicate IsPart(p: string) {
    p != "" && p != "." && '/' !in p
  }

  /** Parts spelled with slashes between them are read back. */
  lemma {:induction false} PartsOfSpelled(names: seq<string>)
    requires forall p :: p in names ==> IsPart(p)
    ensures Parts(SlashJoin(names)) == names
  {
    hide Parts;
    if names == [] {
      OnePart("");
    } else {
      assert names[0] in names;
      OnePart(names[0]);
      PartsStep(names[0], SlashJoin(names[1..]));
      PartsOfSpelled(names[1..]);
    }
  }

  lemma LeadingSlash(s: string)
    ensures Parts("/" + s) == Parts(s)
  {
    hide Parts;
    OnePart("");
    PartsStep("", s);
    assert "" + "/" + s == "/" + s && [] + Parts(s) == Parts(s);
  }

  /** A literal goes below the base, and one with a leading slash away from it. */
  lemma JoinIs(base: Path, s: string)
    ensures Join(base, "/" + s) == Parts(s)
    ensures (s == "" || s[0] != '/') ==> Join(base, s) == base + Parts(s)
  {
    hide Parts;
    LeadingSlash(s);
  }

  lemma ClimbsAre(p: Path, x: string, n: nat)
    ensures Parent(p + [x]) == p && Parent([]) == [] && Up(p, 0) == p && Up(p, n + 1) == Parent(Up(p, n))
  {
    assert (p + [x])[..|p|] == p;
  }

  // ---- the steps of a chain ----

  function IndexedBy(x: Node, attr: string, index: Literal): (r: Node)
    ensures WellFormed(x) ==> WellFormed(r)
  {
    Node(Subscript, 0, [Dotted(x, attr), Node(Constant(index), 0, [])])
  }

  function Joined(x: Node, div: bool, literal: Literal): (r: Node)
    ensures WellFormed(x) ==> WellFormed(r)
  {
    Node(BinOp(div), 0, [x, Node(Constant(literal), 0, [])])
  }

  function NameOf(id: string): (r: Node)
    ensures WellFormed(r)
  {
    Node(Name(id, true), 0, [])
  }

  /** A function by its bare name, or as an attribute of something. */
  predicate Calls(f: Node, name: string) {
    (f.kind.Name? && f.kind.id == name) || (f.kind.Attribute? && f.kind.attr == name)
  }

  /** `__file__` is the anchor, and no other name is anything. */
  lemma NameResolves(id: string, anchor: Path)
    ensures Resolve(NameOf(id), anchor) == if id == "__file__" then Some(anchor) else None
  {}

  /** `x.parent` climbs, `x.resolve` and `x.absolute` stay, every other attribute breaks the chain. */
  lemma AttributeResolves(x: Node, attr: string, anchor: Path)
    requires WellFormed(x)
    ensures Resolve(Dotted(x, attr), anchor) ==
      match Resolve(x, anchor)
      case None => None
      case Some(p) => if attr == "parent" then Some(Parent(p)) else if attr in {"resolve", "absolute"} then Some(p) else None
  {}

  /** `x.parents[n]` climbs n + 1 times for n >= 0, not at all below; `True` counts as one, and no other index is read. */
  lemma IndexResolves(x: Node, attr: string, index: Literal, anchor: Path)
    requires WellFormed(x)
    ensures Resolve(IndexedBy(x, attr, index), anchor) ==
      match (Resolve(x, anchor), index)
      case (Some(p), IntLit(n)) => if attr != "parents" then None else Some(if n < 0 then p else Up(p, n + 1))
      case (Some(p), BoolLit(b)) => if attr != "parents" then None else Some(if b then Up(p, 2) else Up(p, 1))
      case _ => None
  {
    hide Resolve;
    var e := IndexedBy(x, attr, index);
    assert WellFormed(Dotted(x, attr));
    IndexStep(e, x, anchor);
    if Resolve(x, anchor).Some? {
      ClimbsAre(Resolve(x, anchor).value, "", 0);
    }
  }

  lemma IndexStep(e: Node, x: Node, anchor: Path)
    requires WellFormed(e) && e.kind.Subscript? && WellFormed(x) && e.kids[0].kind.Attribute? && e.kids[0].kids == [x]
    ensures Resolve(e, anchor) ==
      if e.kids[0].kind.attr == "parents" && Resolve(x, anchor).Some? && ConstInt(e.kids[1]).Some?
      then Some(Up(Resolve(x, anchor).value, Hops(ConstInt(e.kids[1]).value))) else None
  {
    hide Up, ConstInt, Hops;
    assert WellFormed(e.kids[0]);
  }

  /** `x / "literal"` joins; other operators and other operands break the chain. */
  lemma JoinResolves(x: Node, div: bool, literal: Literal, anchor: Path)
    requires WellFormed(x)
    ensures Resolve(Joined(x, div, literal), anchor) ==
      match Resolve(x, anchor)
      case None => None
      case Some(p) => if div && literal.StrLit? then Some(Join(p, literal.text)) else None
  {
    hide Join;
  }

  /** `x.resolve(...)` is `x`, with whatever arguments. */
  lemma ResolveCallResolves(x: Node, args: seq<Node>, anchor: Path)
    requires WellFormed(x) && forall a :: a in args ==> WellFormed(a)
    ensures WellFormed(Called(Dotted(x, "resolve"), args))
    ensures Resolve(Called(Dotted(x, "resolve"), args), anchor) == Resolve(x, anchor)
  {
    assert WellFormed(Dotted(x, "resolve"));
  }

  /** `Path(x)`, `abspath(x)`, `normpath(x)` are `x`, `dirname(x)` its parent, bare or behind a module; nothing else is. */
  lemma CallResolves(f: Node, x: Node, anchor: Path)
    requires WellFormed(f) && WellFormed(x) && f.kind != Attribute("resolve")
    ensures WellFormed(Called(f, [x]))
    ensures Resolve(Called(f, [x]), anchor) ==
      if Calls(f, "Path") || Calls(f, "abspath") || Calls(f, "normpath") then Resolve(x, anchor)
      else if Calls(f, "dirname") then
        match Resolve(x, anchor) case None => None case Some(p) => Some(Parent(p))
      else None
  {
    var e := Called(f, [x]);
    assert e.kids == [f, x] && e.kind.args == 1;
    assert WellFormed(e);
  }

  /** With any other number of arguments these calls break the chain. */
  lemma OtherArityIsUnread(f: Node, args: seq<Node>, anchor: Path)
    requires WellFormed(f) && (forall a :: a in args ==> WellFormed(a)) && f.kind != Attribute("resolve") && |args| != 1
    ensures WellFormed(Called(f, args)) && Resolve(Called(f, args), anchor) == None
  {
    assert WellFormed(Called(f, args));
  }

  /** No other expression is read. */
  lemma OthersAreUnread(e: Node, anchor: Path)
    requires WellFormed(e) && !e.kind.Name? && !e.kind.Attribute? && !e.kind.Subscript? && !e.kind.BinOp? && !e.kind.Call?
    ensures Resolve(e, anchor) == None
  {}

  // ---- a reference to a peer ----

  function Here(): (r: Node)
    ensures WellFormed(r)
  {
    NameOf("__file__")
  }

  function Slash(x: Node, literal: string): (r: Node)
    ensures WellFormed(x) ==> WellFormed(r)
  {
    Joined(x, true, StrLit(literal))
  }

  /** `Path(__file__).parent / "_support"` in a file right below the tests directory is flagged. */
  lemma PeerIsFlagged(testsDir: Path, file: string, peer: string)
    requires IsPart(peer)
    ensures var path := testsDir + [file];
      var target := Resolve(Slash(Dotted(Called(NameOf("Path"), [Here()]), "parent"), peer), path);
      target == Some(testsDir + [peer]) && Inside(testsDir, Parent(path)) &&
      (peer != file ==> Flags(target.value, path, testsDir))
  {
    hide Resolve, Parts;
    var path, call := testsDir + [file], Called(NameOf("Path"), [Here()]);
    NameResolves("__file__", path);
    CallResolves(NameOf("Path"), Here(), path);
    AttributeResolves(call, "parent", path);
    ClimbsAre(testsDir, file, 0);
    JoinResolves(Dotted(call, "parent"), true, StrLit(peer), path);
    JoinIs(testsDir, peer);
    assert '/' !in peer && peer[0] in peer;
    OnePart(peer);
    assert path != testsDir + [peer] || peer == file by {
      assert path[|testsDir|] == file;
    }
  }

  /** In a bucket, a reference below the bucket is passed and one to another bucket is flagged. */
  lemma BucketDecides(testsDir: Path, bucket: string, file: string, other: string, name: string)
    ensures var path, target := testsDir + [bucket, file], testsDir + [other, name];
      Inside(testsDir, Parent(path)) && (Flags(target, path, testsDir) <==> other != bucket)
  {
    var path, target := testsDir + [bucket, file], testsDir + [other, name];
    assert Parent(path) == testsDir + [bucket];
    assert Parent(path)[..|testsDir| + 1] == testsDir + [bucket];
    assert target[|testsDir|] == other && path[|testsDir|] == bucket;
    assert target == testsDir + [other] + [name];
  }

  // ---- the whole gate ----

  /** An attribute, subscript, operator or call that the resolver reads as `p`, while it does not read the node above. */
  predicate EndsChain(root: Node, a: Address, anchor: Path, p: Path)
    requires WellFormed(root)
  {
    HasNode(root, a) && Resolve(At(root, a), anchor) == Some(p) && !At(root, a).kind.Name? &&
    (a != [] ==> HasNode(root, a[..|a| - 1]) && Resolve(At(root, a[..|a| - 1]), anchor) == None)
  }

  /** For a file right below the tests directory every path but its own two is foreign, else every one outside its bucket. */
  predicate IsForeign(p: Path, path: Path, testsDir: Path)
    requires Inside(testsDir, Parent(path))
  {
    if Parent(path) == testsDir then p != path && p != testsDir
    else !(|testsDir| < |p| && p[..|testsDir| + 1] == path[..|testsDir| + 1])
  }

  lemma ReportedIsEnd(root: Node, a: Address, anchor: Path, p: Path)
    requires WellFormed(root)
    ensures HasNode(root, a) && Reported(root, a, anchor) && Target(root, a, anchor) == p <==> EndsChain(root, a, anchor, p)
  {
    hide At;
    if HasNode(root, a) {
      if a != [] {
        AtParent(root, a);
      }
      if Resolve(At(root, a), anchor).Some? {
        KindsThatResolve(At(root, a), anchor);
      }
    }
  }

  lemma KindsThatResolve(e: Node, anchor: Path)
    requires WellFormed(e) && Resolve(e, anchor).Some?
    ensures IsChainNode(e) <==> !e.kind.Name?
  {}

  lemma FlagsIffForeign(p: Path, path: Path, testsDir: Path)
    requires Inside(testsDir, Parent(path))
    ensures Flags(p, path, testsDir) <==> IsForeign(p, path, testsDir)
  {
    if Parent(path) != testsDir {
      var home := path[..|testsDir| + 1];
      GateIsInside(p, path, testsDir);
      assert Parent(path)[..|testsDir| + 1] == home;
      assert Inside(home, p) <==> |testsDir| < |p| && p[..|testsDir| + 1] == home;
    } else {
      FlatIsForeign(p, path, testsDir);
    }
  }

  lemma FlatIsForeign(p: Path, path: Path, testsDir: Path)
    requires Inside(testsDir, Parent(path)) && Parent(path) == testsDir
    ensures Flags(p, path, testsDir) <==> p != path && p != testsDir
  {}

  /** What `ReferencesAFixedTestsLocation` answers: some chain of the file ends in a path that is foreign to it. */
  lemma GateIff(root: Node, path: Path, testsDir: Path)
    requires WellFormed(root) && Inside(testsDir, Parent(path))
    ensures (exists p :: p in TargetsOf(root, Walk(root, []), path) && Flags(p, path, testsDir)) <==>
      exists a, p :: EndsChain(root, a, path, p) && IsForeign(p, path, testsDir)
  {
    hide Walk, TargetsOf, Flags, EndsChain, IsForeign, Resolve, WellFormed;
    forall p ensures Flags(p, path, testsDir) <==> IsForeign(p, path, testsDir) {
      FlagsIffForeign(p, path, testsDir);
    }
    forall p ensures p in TargetsOf(root, Walk(root, []), path) <==> exists a :: EndsChain(root, a, path, p) {
      TargetsAreReported(root, path, p);
      forall a ensures HasNode(root, a) && Reported(root, a, path) && Target(root, a, path) == p <==> EndsChain(root, a, path, p) {
        ReportedIsEnd(root, a, path, p);
      }
    }
  }
}
