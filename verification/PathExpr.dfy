/** The path that a `__file__`-rooted expression denotes. */
module PathExpr {
  import opened Wrappers
  import opened Syntax

  /** An absolute path as its parts below the root; `pathlib` keeps `..` as a part of its own. */
  type Path = seq<string>

  function Parent(p: Path): Path {
    if p == [] then p else p[..|p| - 1]
  }

  function Up(p: Path, hops: nat): Path {
    if hops <= |p| then p[..|p| - hops] else []
  }

  // ---- joining a literal ----

  function SlashEnd(s: string, i: nat): (j: nat)
    requires i <= |s|
    ensures i <= j <= |s|
    ensures forall k :: i <= k < j ==> s[k] != '/'
    ensures j < |s| ==> s[j] == '/'
    decreases |s| - i
  {
    if i < |s| && s[i] != '/' then SlashEnd(s, i + 1) else i
  }

  /** The parts of a literal; empty parts and `.` are dropped. */
  function Parts(s: string): (r: seq<string>)
    ensures forall p :: p in r ==> p != "" && p != "."
    decreases |s|
  {
    var j := SlashEnd(s, 0);
    var head := if s[..j] == "" || s[..j] == "." then [] else [s[..j]];
    if j == |s| then head else head + Parts(s[j + 1..])
  }

  predicate IsAbsolute(s: string) {
    s != "" && s[0] == '/'
  }

  /** `base / literal`: an absolute literal replaces the base. */
  function Join(base: Path, s: string): Path {
    if IsAbsolute(s) then Parts(s) else base + Parts(s)
  }

  // ---- the resolver ----

  function ConstInt(n: Node): Option<int> {
    match n.kind
    case Constant(IntLit(i)) => Some(i)
    case Constant(BoolLit(b)) => Some(if b then 1 else 0)
    case _ => None
  }

  function ConstStr(n: Node): Option<string> {
    if n.kind.Constant? && n.kind.literal.StrLit? then Some(n.kind.literal.text) else None
  }

  function FuncName(f: Node): Option<string> {
    match f.kind
    case Name(id, _) => Some(id)
    case Attribute(attr) => Some(attr)
    case _ => None
  }

  /** `range(n + 1)` turns. */
  function Hops(n: int): nat {
    if n < 0 then 0 else n + 1
  }

  predicate IsParents(n: Node) {
    n.kind == Attribute("parents")
  }

  predicate IsResolveCall(call: Node)
    requires ArityOk(call) && call.kind.Call?
  {
    call.kids[0].kind == Attribute("resolve")
  }

  predicate IsPathCall(call: Node)
    requires ArityOk(call) && call.kind.Call?
  {
    call.kind.args == 1 && FuncName(call.kids[0]) in {Some("Path"), Some("abspath"), Some("normpath")}
  }

  predicate IsDirnameCall(call: Node)
    requires ArityOk(call) && call.kind.Call?
  {
    call.kind.args == 1 && FuncName(call.kids[0]) == Some("dirname")
  }

  /** `_resolve`. */
  function Resolve(e: Node, anchor: Path): Option<Path>
    requires WellFormed(e)
  {
    match e.kind
    case Name(id, _) => if id == "__file__" then Some(anchor) else None
    case Attribute(attr) =>
      var base := Resolve(e.kids[0], anchor);
      if base.None? then None
      else if attr == "parent" then Some(Parent(base.value))
      else if attr == "resolve" || attr == "absolute" then base
      else None
    case Subscript =>
      var target := e.kids[0];
      if !IsParents(target) then None
      else
        assert WellFormed(target);
        var base := Resolve(target.kids[0], anchor);
        var n := ConstInt(e.kids[1]);
        if base.None? || n.None? then None else Some(Up(base.value, Hops(n.value)))
    case BinOp(div) =>
      if !div then None
      else
        var base := Resolve(e.kids[0], anchor);
        var literal := ConstStr(e.kids[1]);
        if base.None? || literal.None? then None else Some(Join(base.value, literal.value))
    case Call(_) =>
      if IsResolveCall(e) then
        assert WellFormed(e.kids[0]);
        Resolve(e.kids[0].kids[0], anchor)
      else if IsPathCall(e) then Resolve(e.kids[1], anchor)
      else if IsDirnameCall(e) then
        var base := Resolve(e.kids[1], anchor);
        if base.None? then None else Some(Parent(base.value))
      else None
    case _ => None
  }

  // ---- normal forms ----

  /** Climb `ups` directories from the anchor, then descend through `downs`; or go to a fixed place. */
  datatype Norm = Rel(ups: nat, downs: seq<string>) | Fixed(parts: seq<string>)

  function RunNorm(n: Norm, anchor: Path): Path {
    match n
    case Rel(ups, downs) => Up(anchor, ups) + downs
    case Fixed(parts) => parts
  }

  function Pop(n: Norm, hops: nat): Norm {
    match n
    case Rel(ups, downs) => if hops <= |downs| then Rel(ups, Up(downs, hops)) else Rel(ups + hops - |downs|, [])
    case Fixed(parts) => Fixed(Up(parts, hops))
  }

  function Push(n: Norm, s: string): Norm {
    if IsAbsolute(s) then Fixed(Parts(s))
    else match n
      case Rel(ups, downs) => Rel(ups, downs + Parts(s))
      case Fixed(parts) => Fixed(parts + Parts(s))
  }

  /** The normal form of an expression; it does not depend on the anchor. */
  function NormOf(e: Node): Option<Norm>
    requires WellFormed(e)
  {
    match e.kind
    case Name(id, _) => if id == "__file__" then Some(Rel(0, [])) else None
    case Attribute(attr) =>
      var base := NormOf(e.kids[0]);
      if base.None? then None
      else if attr == "parent" then Some(Pop(base.value, 1))
      else if attr == "resolve" || attr == "absolute" then base
      else None
    case Subscript =>
      var target := e.kids[0];
      if !IsParents(target) then None
      else
        assert WellFormed(target);
        var base := NormOf(target.kids[0]);
        var n := ConstInt(e.kids[1]);
        if base.None? || n.None? then None else Some(Pop(base.value, Hops(n.value)))
    case BinOp(div) =>
      if !div then None
      else
        var base := NormOf(e.kids[0]);
        var literal := ConstStr(e.kids[1]);
        if base.None? || literal.None? then None else Some(Push(base.value, literal.value))
    case Call(_) =>
      if IsResolveCall(e) then
        assert WellFormed(e.kids[0]);
        NormOf(e.kids[0].kids[0])
      else if IsPathCall(e) then NormOf(e.kids[1])
      else if IsDirnameCall(e) then
        var base := NormOf(e.kids[1]);
        if base.None? then None else Some(Pop(base.value, 1))
      else None
    case _ => None
  }

  lemma PopIsUp(n: Norm, hops: nat, anchor: Path)
    ensures RunNorm(Pop(n, hops), anchor) == Up(RunNorm(n, anchor), hops)
  {
    if n.Rel? {
      var base := Up(anchor, n.ups);
      if hops <= |n.downs| {
        assert Up(base + n.downs, hops) == base + Up(n.downs, hops);
      } else {
        assert Up(base + n.downs, hops) == Up(base, hops - |n.downs|);
        assert Up(base, hops - |n.downs|) == Up(anchor, n.ups + hops - |n.downs|);
      }
    }
  }

  lemma PushIsJoin(n: Norm, s: string, anchor: Path)
    ensures RunNorm(Push(n, s), anchor) == Join(RunNorm(n, anchor), s)
  {
    if n.Rel? && !IsAbsolute(s) {
      assert Up(anchor, n.ups) + (n.downs + Parts(s)) == Up(anchor, n.ups) + n.downs + Parts(s);
    }
  }

  /** The resolver runs the normal form on the anchor. */
  lemma {:induction false} ResolveIsNorm(e: Node, anchor: Path)
    requires WellFormed(e)
    ensures Resolve(e, anchor) == match NormOf(e) case None => None case Some(n) => Some(RunNorm(n, anchor))
  {
    match e.kind
    case Name(_, _) =>
      assert Up(anchor, 0) + [] == anchor;
    case Attribute(attr) =>
      ResolveIsNorm(e.kids[0], anchor);
      if NormOf(e.kids[0]).Some? { PopIsUp(NormOf(e.kids[0]).value, 1, anchor); }
    case Subscript =>
      if IsParents(e.kids[0]) {
        assert WellFormed(e.kids[0]);
        var x := e.kids[0].kids[0];
        ResolveIsNorm(x, anchor);
        if NormOf(x).Some? && ConstInt(e.kids[1]).Some? {
          PopIsUp(NormOf(x).value, Hops(ConstInt(e.kids[1]).value), anchor);
        }
      }
    case BinOp(_) =>
      ResolveIsNorm(e.kids[0], anchor);
      if NormOf(e.kids[0]).Some? && ConstStr(e.kids[1]).Some? {
        PushIsJoin(NormOf(e.kids[0]).value, ConstStr(e.kids[1]).value, anchor);
      }
    case Call(_) =>
      assert WellFormed(e.kids[0]);
      if IsResolveCall(e) {
        ResolveIsNorm(e.kids[0].kids[0], anchor);
      } else if IsPathCall(e) || IsDirnameCall(e) {
        ResolveIsNorm(e.kids[1], anchor);
        if NormOf(e.kids[1]).Some? { PopIsUp(NormOf(e.kids[1]).value, 1, anchor); }
      }
    case _ =>
  }

  // ---- spelling independence ----

  lemma NotDotDot(name: string)
    ensures name + "d" != ".." && "d" != ".."
  {
    var w := name + "d";
    assert w[|w| - 1] == 'd' && ".."[1] == '.';
  }

  lemma DifferentNorms(m: Norm, n: Norm) returns (anchor: Path)
    requires m != n
    ensures RunNorm(m, anchor) != RunNorm(n, anchor) && ".." !in anchor
  {
    if m.Fixed? && n.Fixed? {
      anchor := [];
    } else if m.Fixed? || n.Fixed? {
      var (f, r) := if m.Fixed? then (m, n) else (n, m);
      NotDotDot("");
      anchor := seq(r.ups + |f.parts| + 1, _ => "d");
      assert |RunNorm(r, anchor)| > |f.parts|;
    } else {
      var (a, b) := if m.ups <= n.ups then (m, n) else (n, m);
      var w := if b.downs == [] then "d" else b.downs[0] + "d";
      NotDotDot(if b.downs == [] then "" else b.downs[0]);
      var size := b.ups + 1;
      anchor := seq(size, _ => w);
      if a.ups < b.ups {
        var at := size - b.ups;
        assert RunNorm(a, anchor)[at] == w;
        assert b.downs == [] || RunNorm(b, anchor)[at] == b.downs[0];
        if b.downs == [] {
          assert |RunNorm(b, anchor)| == at;
        } else {
          assert |w| == |b.downs[0]| + 1;
        }
      } else {
        assert RunNorm(a, anchor)[size - a.ups..] == a.downs;
        assert RunNorm(b, anchor)[size - b.ups..] == b.downs;
      }
    }
  }

  /** Two spellings denote the same path from every anchor exactly when their normal forms are equal. */
  lemma SpellingIndependence(x: Node, y: Node)
    requires WellFormed(x) && WellFormed(y)
    ensures NormOf(x) == NormOf(y) <==> forall anchor :: Resolve(x, anchor) == Resolve(y, anchor)
  {
    forall anchor
      ensures Resolve(x, anchor) == match NormOf(x) case None => None case Some(n) => Some(RunNorm(n, anchor))
      ensures Resolve(y, anchor) == match NormOf(y) case None => None case Some(n) => Some(RunNorm(n, anchor))
    {
      ResolveIsNorm(x, anchor);
      ResolveIsNorm(y, anchor);
    }
    if NormOf(x) != NormOf(y) {
      if NormOf(x).Some? && NormOf(y).Some? {
        var anchor := DifferentNorms(NormOf(x).value, NormOf(y).value);
        ResolveIsNorm(x, anchor);
        ResolveIsNorm(y, anchor);
        assert Resolve(x, anchor) != Resolve(y, anchor);
      } else {
        ResolveIsNorm(x, []);
        ResolveIsNorm(y, []);
        assert Resolve(x, []) != Resolve(y, []);
      }
    }
  }

  // ---- three ways to climb ----

  function Dotted(x: Node, attr: string): (r: Node)
    ensures WellFormed(x) ==> WellFormed(r)
  {
    Node(Attribute(attr), 0, [x])
  }

  function Called(f: Node, args: seq<Node>): (r: Node)
    ensures WellFormed(f) && (forall a :: a in args ==> WellFormed(a)) ==> WellFormed(r)
  {
    Node(Call(|args|), 0, [f] + args)
  }

  function ParentChain(x: Node, n: nat): (r: Node)
    ensures WellFormed(x) ==> WellFormed(r)
  {
    if n == 0 then x else Dotted(ParentChain(x, n - 1), "parent")
  }

  function DirnameChain(x: Node, n: nat): (r: Node)
    ensures WellFormed(x) ==> WellFormed(r)
  {
    if n == 0 then x else Called(Node(Name("dirname", true), 0, []), [DirnameChain(x, n - 1)])
  }

  function ParentsIndex(x: Node, n: nat): (r: Node)
    ensures WellFormed(x) ==> WellFormed(r)
  {
    Node(Subscript, 0, [Dotted(x, "parents"), Node(Constant(IntLit(n)), 0, [])])
  }

  lemma PopPop(n: Norm, a: nat, b: nat)
    ensures Pop(Pop(n, a), b) == Pop(n, a + b)
    ensures n.Rel? ==> Pop(n, 0) == n
  {
    match n
    case Rel(ups, downs) =>
      if a + b <= |downs| { assert Up(Up(downs, a), b) == Up(downs, a + b); }
      assert Up(downs, 0) == downs;
    case Fixed(parts) =>
      assert Up(Up(parts, a), b) == Up(parts, a + b);
  }

  lemma {:induction false} ParentChainPops(x: Node, n: nat)
    requires WellFormed(x) && NormOf(x).Some?
    ensures NormOf(ParentChain(x, n + 1)) == Some(Pop(NormOf(x).value, n + 1))
  {
    hide Pop;
    if n == 0 {
      assert ParentChain(x, 1) == Dotted(x, "parent");
    } else {
      ParentChainPops(x, n - 1);
      PopPop(NormOf(x).value, n, 1);
      assert ParentChain(x, n + 1) == Dotted(ParentChain(x, n), "parent");
    }
  }

  lemma DirnamePops(x: Node)
    requires WellFormed(x) && NormOf(x).Some?
    ensures NormOf(DirnameChain(x, 1)) == Some(Pop(NormOf(x).value, 1))
    ensures forall m: nat :: DirnameChain(x, m + 1) == DirnameChain(DirnameChain(x, m), 1)
  {
    hide Pop;
    assert DirnameChain(x, 0) == x;
    assert forall m: nat :: DirnameChain(DirnameChain(x, m), 0) == DirnameChain(x, m);
  }

  lemma {:induction false} DirnameChainPops(x: Node, n: nat)
    requires WellFormed(x) && NormOf(x).Some?
    ensures NormOf(DirnameChain(x, n + 1)) == Some(Pop(NormOf(x).value, n + 1))
  {
    hide Pop, NormOf;
    DirnamePops(x);
    if n == 0 {
    } else {
      DirnameChainPops(x, n - 1);
      DirnamePops(DirnameChain(x, n));
      PopPop(NormOf(x).value, n, 1);
    }
  }

  /** `x.parents[n]`, n + 1 times `.parent` and n + 1 nested `dirname` calls are one path, whatever `x` is. */
  lemma ThreeClimbsAgree(x: Node, n: nat, anchor: Path)
    requires WellFormed(x) && Resolve(x, anchor).Some?
    ensures Resolve(ParentsIndex(x, n), anchor) == Some(Up(Resolve(x, anchor).value, n + 1))
    ensures Resolve(ParentChain(x, n + 1), anchor) == Resolve(ParentsIndex(x, n), anchor)
    ensures Resolve(DirnameChain(x, n + 1), anchor) == Resolve(ParentsIndex(x, n), anchor)
  {
    hide Resolve, NormOf, Pop, ParentChain, DirnameChain, ParentsIndex, WellFormed;
    IndexClimbs(x, n, anchor);
    ResolveIsNorm(x, anchor);
    ParentChainPops(x, n);
    DirnameChainPops(x, n);
    ResolveIsNorm(ParentChain(x, n + 1), anchor);
    ResolveIsNorm(DirnameChain(x, n + 1), anchor);
    PopIsUp(NormOf(x).value, n + 1, anchor);
  }

  lemma IndexClimbs(x: Node, n: nat, anchor: Path)
    requires WellFormed(x) && Resolve(x, anchor).Some?
    ensures Resolve(ParentsIndex(x, n), anchor) == Some(Up(Resolve(x, anchor).value, n + 1))
  {
    hide Up;
    assert WellFormed(Dotted(x, "parents"));
  }

  /** The call `x.resolve()` is `x`, but the call `x.absolute()` ends the chain: no climb from it is seen. */
  lemma AbsoluteCallIsUnseen(x: Node, n: nat, anchor: Path)
    requires WellFormed(x)
    ensures Resolve(Called(Dotted(x, "resolve"), []), anchor) == Resolve(x, anchor)
    ensures Resolve(ParentChain(Called(Dotted(x, "absolute"), []), n), anchor) == None
  {
    if n == 0 {
    } else {
      AbsoluteCallIsUnseen(x, n - 1, anchor);
    }
  }

  predicate IsAbsoluteCall(e: Node) {
    e.kind.Call? && e.kids != [] && e.kids[0].kind == Attribute("absolute")
  }

  /** `_resolve` as it would be if the call `x.absolute()` were a step like `x.resolve()`. */
  function ResolveMore(e: Node, anchor: Path): Option<Path>
    requires WellFormed(e)
  {
    match e.kind
    case Name(id, _) => if id == "__file__" then Some(anchor) else None
    case Attribute(attr) =>
      var base := ResolveMore(e.kids[0], anchor);
      if base.None? then None
      else if attr == "parent" then Some(Parent(base.value))
      else if attr == "resolve" || attr == "absolute" then base
      else None
    case Subscript =>
      var target := e.kids[0];
      if !IsParents(target) then None
      else
        assert WellFormed(target);
        var base := ResolveMore(target.kids[0], anchor);
        var n := ConstInt(e.kids[1]);
        if base.None? || n.None? then None else Some(Up(base.value, Hops(n.value)))
    case BinOp(div) =>
      if !div then None
      else
        var base := ResolveMore(e.kids[0], anchor);
        var literal := ConstStr(e.kids[1]);
        if base.None? || literal.None? then None else Some(Join(base.value, literal.value))
    case Call(_) =>
      if IsResolveCall(e) || IsAbsoluteCall(e) then
        assert WellFormed(e.kids[0]);
        ResolveMore(e.kids[0].kids[0], anchor)
      else if IsPathCall(e) then ResolveMore(e.kids[1], anchor)
      else if IsDirnameCall(e) then
        var base := ResolveMore(e.kids[1], anchor);
        if base.None? then None else Some(Parent(base.value))
      else None
    case _ => None
  }

  /** A call `.absolute()` lies on the way down that the evaluation of `e` follows. */
  predicate HasAbsoluteCall(e: Node)
    requires WellFormed(e)
  {
    match e.kind
    case Attribute(_) => HasAbsoluteCall(e.kids[0])
    case Subscript => IsParents(e.kids[0]) && (assert WellFormed(e.kids[0]); HasAbsoluteCall(e.kids[0].kids[0]))
    case BinOp(_) => HasAbsoluteCall(e.kids[0])
    case Call(_) =>
      IsAbsoluteCall(e)
      || (if IsResolveCall(e) then (assert WellFormed(e.kids[0]); HasAbsoluteCall(e.kids[0].kids[0]))
          else (IsPathCall(e) || IsDirnameCall(e)) && HasAbsoluteCall(e.kids[1]))
    case _ => false
  }

  /** What the resolver does not see: exactly the expressions with such a call that would resolve if it were a step. */
  lemma {:induction false} UnseenIffAbsoluteCall(e: Node, anchor: Path)
    requires WellFormed(e)
    ensures Resolve(e, anchor) ==
      if HasAbsoluteCall(e) then None else ResolveMore(e, anchor)
    ensures IsAbsoluteCall(e) ==> WellFormed(e.kids[0]) && ResolveMore(e, anchor) == ResolveMore(e.kids[0].kids[0], anchor)
    decreases e
  {
    match e.kind
    case Attribute(_) =>
      UnseenIffAbsoluteCall(e.kids[0], anchor);
    case Subscript =>
      if IsParents(e.kids[0]) {
        assert WellFormed(e.kids[0]);
        UnseenIffAbsoluteCall(e.kids[0].kids[0], anchor);
      }
    case BinOp(_) =>
      UnseenIffAbsoluteCall(e.kids[0], anchor);
    case Call(_) =>
      assert WellFormed(e.kids[0]);
      if IsResolveCall(e) {
        UnseenIffAbsoluteCall(e.kids[0].kids[0], anchor);
      } else if IsPathCall(e) || IsDirnameCall(e) {
        UnseenIffAbsoluteCall(e.kids[1], anchor);
      }
    case _ =>
  }

  /** `..` in a literal is kept as a part: the denoted path lies, as a path, below the base. */
  lemma DotDotIsKept(base: Path)
    ensures Parts("..") == [".."] && !IsAbsolute("..") && Join(base, "..") == base + [".."]
  {
    assert SlashEnd("..", 0) == 2;
    assert ".."[..2] == "..";
  }
}
