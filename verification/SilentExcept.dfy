/**
  Exception handlers that only assign, where an assigned name reaches a `return` of the enclosing
  function (scripts/check_silent_except_return_reachability.py).
 */
module SilentExcept {
  import opened Wrappers
  import opened Syntax

  // ---- the names a handler binds ----

  function TargetNames(t: Node): set<string> {
    match t.kind
    case Name(id, _) => {id}
    case TupleOrList => NamesOfAll(t.kids)
    case _ => {}
  }

  function NamesOfAll(ts: seq<Node>): (names: set<string>)
    ensures forall x :: x in names <==> exists t :: t in ts && x in TargetNames(t)
  {
    if ts == [] then {}
    else
      var first, rest := ts[0], ts[1..];
      assert ts == [first] + rest && first in ts;
      assert forall t :: t in ts <==> t == first || t in rest;
      var more := NamesOfAll(rest);
      assert forall x :: x in more <==> exists t :: t in rest && x in TargetNames(t);
      TargetNames(first) + more
  }

  /** The name `x` stands at `b` in the target, inside nothing but tuples and lists. */
  predicate Unpacks(t: Node, b: Address, x: string)
    decreases |b|
  {
    if b == [] then t.kind.Name? && t.kind.id == x
    else t.kind.TupleOrList? && b[0] < |t.kids| && Unpacks(t.kids[b[0]], b[1..], x)
  }

  lemma {:induction false} TargetNamesAreUnpacked(t: Node, x: string)
    ensures x in TargetNames(t) ==> exists b :: Unpacks(t, b, x)
    ensures (exists b :: Unpacks(t, b, x)) ==> x in TargetNames(t)
  {
    if x in TargetNames(t) {
      if t.kind.Name? {
        var here: Address := [];
        assert Unpacks(t, here, x);
      } else {
        var kid :| kid in t.kids && x in TargetNames(kid);
        var i: nat :| i < |t.kids| && t.kids[i] == kid;
        TargetNamesAreUnpacked(kid, x);
        var b :| Unpacks(kid, b, x);
        var path: Address := [i] + b;
        assert path[1..] == b;
        assert Unpacks(t, path, x);
      }
    }
    forall b | Unpacks(t, b, x) ensures x in TargetNames(t) {
      UnpackedIsBound(t, b, x);
    }
  }

  lemma {:induction false} UnpackedIsBound(t: Node, b: Address, x: string)
    requires Unpacks(t, b, x)
    ensures x in TargetNames(t)
    decreases |b|
  {
    if b == [] {
    } else {
      var kid := t.kids[b[0]];
      UnpackedIsBound(kid, b[1..], x);
      assert kid in t.kids;
    }
  }

  function Body(h: Node): seq<Node>
    requires WellFormed(h) && h.kind.Handler?
  {
    if h.kind.typed then h.kids[1..] else h.kids
  }

  /** Every statement of the body, which stands behind the type if there is one, is a plain assignment. */
  predicate AssignOnly(h: Node)
    requires WellFormed(h) && h.kind.Handler?
  {
    forall i :: (if h.kind.typed then 1 else 0) <= i < |h.kids| ==> h.kids[i].kind.Assign?
  }

  /** Some statement of the body assigns to the name. */
  ghost predicate Binds(h: Node, x: string)
    requires WellFormed(h) && h.kind.Handler?
  {
    exists i :: (if h.kind.typed then 1 else 0) <= i < |h.kids| && Assigns(h.kids[i], x)
  }

  ghost predicate Assigns(s: Node, x: string) {
    s.kind.Assign? && ArityOk(s) && exists j, b :: 0 <= j < s.kind.targets && Unpacks(s.kids[j], b, x)
  }

  lemma AssignsIff(s: Node, x: string)
    requires s.kind.Assign? && ArityOk(s)
    ensures Assigns(s, x) <==> x in NamesOfAll(s.kids[..s.kind.targets])
  {
    hide Unpacks, TargetNames;
    var ts := s.kids[..s.kind.targets];
    if j, b :| 0 <= j < s.kind.targets && Unpacks(s.kids[j], b, x) {
      TargetNamesAreUnpacked(ts[j], x);
      assert ts[j] in ts && x in TargetNames(ts[j]);
    }
    if t :| t in ts && x in TargetNames(t) {
      var j :| 0 <= j < |ts| && ts[j] == t;
      TargetNamesAreUnpacked(t, x);
      var b :| Unpacks(t, b, x);
      assert Unpacks(s.kids[j], b, x);
    }
  }

  lemma BodyAt(h: Node)
    requires WellFormed(h) && h.kind.Handler?
    ensures var first := if h.kind.typed then 1 else 0;
      first <= |h.kids| && |Body(h)| == |h.kids| - first && forall i :: first <= i < |h.kids| ==> h.kids[i] == Body(h)[i - first]
  {}

  lemma AssignOnlyIs(h: Node)
    requires WellFormed(h) && h.kind.Handler?
    ensures AssignOnly(h) <==> forall s :: s in Body(h) ==> s.kind.Assign?
  {
    hide Body, WellFormed;
    var body, first := Body(h), if h.kind.typed then 1 else 0;
    BodyAt(h);
    assert forall k :: 0 <= k < |body| ==> body[k] == h.kids[first + k];
  }

  lemma BindsIs(h: Node, x: string)
    requires WellFormed(h) && h.kind.Handler?
    ensures Binds(h, x) <==> exists s :: s in Body(h) && Assigns(s, x)
  {
    hide Assigns, Body, WellFormed;
    var body, first := Body(h), if h.kind.typed then 1 else 0;
    BodyAt(h);
    assert forall k :: 0 <= k < |body| ==> body[k] == h.kids[first + k];
  }

  method HandlerBoundNames(h: Node) returns (r: Option<set<string>>)
    requires WellFormed(h) && h.kind.Handler?
    ensures r.Some? <==> AssignOnly(h) && exists x :: Binds(h, x)
    ensures r.Some? ==> forall x :: x in r.value <==> Binds(h, x)
  {
    hide TargetNames, Assigns, AssignOnly, Binds;
    var names: set<string> := {};
    var body := Body(h);
    AssignOnlyIs(h);
    forall x ensures Binds(h, x) <==> exists s :: s in Body(h) && Assigns(s, x) {
      BindsIs(h, x);
    }
    for i := 0 to |body|
      invariant forall s :: s in body[..i] ==> s.kind.Assign?
      invariant forall x :: x in names <==> exists s :: s in body[..i] && Assigns(s, x)
    {
      var stmt := body[i];
      assert stmt in body && stmt in h.kids && body[..i + 1] == body[..i] + [stmt];
      if !stmt.kind.Assign? {
        return None;
      }
      forall x ensures Assigns(stmt, x) <==> x in NamesOfAll(stmt.kids[..stmt.kind.targets]) {
        AssignsIff(stmt, x);
      }
      names := names + NamesOfAll(stmt.kids[..stmt.kind.targets]);
    }
    assert body[..|body|] == body;
    assert forall x :: x in names <==> Binds(h, x);
    if names == {} {
      return None;
    }
    ghost var x :| x in names;
    assert Binds(h, x);
    r := Some(names);
  }

  // ---- returns of a function's own scope ----

  predicate OpensScope(n: Node) {
    n.kind.Def? || n.kind.Lambda?
  }

  /** The node at `b` belongs to `n` itself: nothing on the way down opens a scope. */
  predicate InOwnScope(n: Node, b: Address)
    decreases |b|
  {
    b == [] || (b[0] < |n.kids| && !OpensScope(n.kids[b[0]]) && InOwnScope(n.kids[b[0]], b[1..]))
  }

  /** No `def` and no lambda lies on the way down to `b`, `b` included. */
  predicate NoScopeBetween(n: Node, b: Address) {
    forall k :: 0 < k <= |b| && HasNode(n, b[..k]) ==> !At(n, b[..k]).kind.Def? && !At(n, b[..k]).kind.Lambda?
  }

  lemma {:induction false} OwnScopeMeans(n: Node, b: Address)
    ensures InOwnScope(n, b) <==> HasNode(n, b) && NoScopeBetween(n, b)
    decreases |b|
  {
    if b == [] || |n.kids| <= b[0] {
    } else {
      var kid := n.kids[b[0]];
      OwnScopeMeans(kid, b[1..]);
      forall k | 0 < k <= |b|
        ensures HasNode(n, b[..k]) <==> HasNode(kid, b[1..][..k - 1])
        ensures HasNode(n, b[..k]) ==> At(n, b[..k]) == At(kid, b[1..][..k - 1])
      {
        assert b[..k][0] == b[0] && b[..k][1..] == b[1..][..k - 1];
      }
      assert b[..1][1..] == [];
      if NoScopeBetween(n, b) {
        assert !OpensScope(At(n, b[..1]));
        forall j | 0 < j <= |b[1..]| && HasNode(kid, b[1..][..j]) ensures !OpensScope(At(kid, b[1..][..j])) {
          assert !OpensScope(At(n, b[..j + 1]));
        }
      }
      if InOwnScope(n, b) {
        forall k | 0 < k <= |b| && HasNode(n, b[..k]) ensures !OpensScope(At(n, b[..k])) {
          if k == 1 {
            assert At(n, b[..1]) == kid;
          } else {
            assert !OpensScope(At(kid, b[1..][..k - 1]));
          }
        }
      }
    }
  }

  predicate IsOwnReturn(n: Node, b: Address) {
    b != [] && HasNode(n, b) && At(n, b).kind.Return? && NoScopeBetween(n, b)
  }

  lemma OwnReturnIff(n: Node, b: Address)
    ensures IsOwnReturn(n, b) <==> b != [] && HasNode(n, b) && InOwnScope(n, b) && At(n, b).kind.Return?
  {
    hide NoScopeBetween, InOwnScope, HasNode;
    OwnScopeMeans(n, b);
  }

  /** The inner `walk` of `_collect_returns_within_function`: appends to the list it is given. */
  method CollectReturns(n: Node, at: Address, collected: seq<Address>) returns (found: seq<Address>)
    ensures forall r :: r in found <==> r in collected || exists b :: r == at + b && IsOwnReturn(n, b)
    decreases n
  {
    hide InOwnScope, HasNode, IsOwnReturn;
    found := collected;
    for i := 0 to |n.kids|
      invariant forall r :: r in found <==> r in collected || exists b :: r == at + b && IsOwnReturn(n, b) && b != [] && b[0] < i
    {
      var child, here := n.kids[i], at + [i];
      ghost var before := found;
      if !OpensScope(child) {
        if child.kind.Return? {
          found := found + [here];
        }
        ghost var middle := found;
        found := CollectReturns(child, here, found);
      }
      forall r ensures r in found <==> r in before || exists b :: r == at + b && IsOwnReturn(n, b) && b != [] && b[0] == i {
        OwnReturnsThrough(n, i, at, r);
      }
    }
    assert forall b :: IsOwnReturn(n, b) ==> b != [] && b[0] < |n.kids| by {
      forall b | IsOwnReturn(n, b) ensures b != [] && b[0] < |n.kids| { FirstStep(n, b); }
    }
  }

  lemma FirstStep(n: Node, b: Address)
    requires IsOwnReturn(n, b)
    ensures b != [] && b[0] < |n.kids| && !OpensScope(n.kids[b[0]])
  {
    hide IsOwnReturn;
    OwnReturnIff(n, b);
  }

  /** The own returns below a child: the child itself, or an own return of the child. */
  lemma OwnReturnsThrough(n: Node, i: nat, at: Address, r: Address)
    requires i < |n.kids|
    ensures (exists b :: r == at + b && IsOwnReturn(n, b) && b != [] && b[0] == i) <==>
      !OpensScope(n.kids[i]) &&
      ((n.kids[i].kind.Return? && r == at + [i]) || exists c :: r == (at + [i]) + c && IsOwnReturn(n.kids[i], c))
  {
    hide IsOwnReturn, OpensScope;
    var child := n.kids[i];
    if b :| r == at + b && IsOwnReturn(n, b) && b != [] && b[0] == i {
      var c := b[1..];
      assert b == [i] + c && r == (at + [i]) + c;
      OwnStep(n, i, c);
      assert c == [] ==> r == at + [i];
    }
    if !OpensScope(child) && child.kind.Return? && r == at + [i] {
      OwnStep(n, i, []);
      assert [i] + [] == [i] && IsOwnReturn(n, [i]) && [i][0] == i;
    }
    if c :| !OpensScope(child) && r == (at + [i]) + c && IsOwnReturn(child, c) {
      OwnStep(n, i, c);
      var b := [i] + c;
      assert r == at + b && IsOwnReturn(n, b) && b[0] == i;
    }
  }

  /** An own return below a child is the child itself or an own return of it. */
  lemma OwnStep(n: Node, i: nat, c: Address)
    requires i < |n.kids|
    ensures IsOwnReturn(n, [i] + c) <==>
      !OpensScope(n.kids[i]) && ((c == [] && n.kids[i].kind.Return?) || IsOwnReturn(n.kids[i], c))
  {
    hide IsOwnReturn;
    var b := [i] + c;
    OwnReturnIff(n, b);
    OwnReturnIff(n.kids[i], c);
    assert b[0] == i && b[1..] == c;
  }

  // ---- mentions ----

  ghost predicate MentionsName(ret: Node, x: string)
    requires WellFormed(ret) && ret.kind.Return?
  {
    ret.kind.hasResult &&
    exists q :: HasNode(ret.kids[0], q) && At(ret.kids[0], q).kind.Name? && At(ret.kids[0], q).kind.id == x
  }

  method ReturnReferencesAny(ret: Node, names: set<string>) returns (r: bool)
    requires WellFormed(ret) && ret.kind.Return?
    ensures r <==> exists x :: x in names && MentionsName(ret, x)
  {
    hide Walk, HasNode, At;
    if !ret.kind.hasResult {
      return false;
    }
    var value := ret.kids[0];
    assert HasNode(value, []) by { WalkFromRoot(value); }
    var order := Walk(value, []);
    for i := 0 to |order|
      invariant forall q :: q in order[..i] ==> !(At(value, q).kind.Name? && At(value, q).kind.id in names)
    {
      var q := order[i];
      assert q in order && order[..i + 1] == order[..i] + [q];
      if At(value, q).kind.Name? && At(value, q).kind.id in names {
        assert MentionsName(ret, At(value, q).kind.id);
        return true;
      }
    }
    assert order[..|order|] == order;
    forall q | HasNode(value, q) ensures q in order {
      WalkCovers(value, [], q);
    }
    r := false;
  }

  lemma WalkFromRoot(n: Node)
    ensures HasNode(n, [])
  {}

  // ---- the traversal ----

  /** The `def`s around a node, outermost first. */
  function DefsAbove(root: Node, a: Address): (r: seq<Address>)
    requires HasNode(root, a)
    ensures AllNodes(root, r)
    decreases |a|
  {
    if a == [] then []
    else
      AtParent(root, a);
      var parent := a[..|a| - 1];
      DefsAbove(root, parent) + if At(root, parent).kind.Def? then [parent] else []
  }

  /** The handler only assigns, and a name it binds is returned by the nearest function around it. */
  ghost predicate Swallows(root: Node, a: Address)
    requires WellFormed(root)
  {
    HasNode(root, a) && At(root, a).kind.Handler? && AssignOnly(At(root, a)) &&
    exists d, b, x ::
      IsNearestDef(root, a, d) && IsOwnReturn(At(root, d), b) && Binds(At(root, a), x) &&
      ReturnsName(At(root, d), b, x)
  }

  ghost predicate ReturnsName(f: Node, b: Address, x: string) {
    IsOwnReturn(f, b) && WellFormed(At(f, b)) && MentionsName(At(f, b), x)
  }

  /** No other `def` lies between `d` and the node at `a`. */
  ghost predicate IsNearestDef(root: Node, a: Address, d: Address) {
    Below(d, a) && d != a && HasNode(root, d) && At(root, d).kind.Def? &&
    forall p :: Below(d, p) && Below(p, a) && p != d && p != a && HasNode(root, p) ==> !At(root, p).kind.Def?
  }

  lemma {:induction false} TopIsNearest(root: Node, a: Address, d: Address)
    requires HasNode(root, a)
    ensures IsNearestDef(root, a, d) <==> DefsAbove(root, a) != [] && DefsAbove(root, a)[|DefsAbove(root, a)| - 1] == d
    decreases |a|
  {
    if a == [] {
    } else {
      AtParent(root, a);
      var parent := a[..|a| - 1];
      TopIsNearest(root, parent, d);
      assert Below(parent, a);
      forall p | Below(p, a) && p != a ensures Below(p, parent) {
        assert p == parent[..|p|];
      }
      if At(root, parent).kind.Def? {
        forall p | Below(parent, p) && Below(p, a) ensures p == parent || p == a {
          assert p == a[..|p|];
        }
      } else {
        if IsNearestDef(root, parent, d) {
          BelowTrans(d, parent, a);
        }
        forall p | Below(p, parent) ensures Below(p, a) { BelowTrans(p, parent, a); }
      }
    }
  }

  /** The nodes of a subtree in source order, by their addresses. */
  function Preorder(n: Node, at: Address): seq<Address>
    decreases n, |n.kids| + 1
  {
    [at] + PreorderFrom(n, at, 0)
  }

  function PreorderFrom(n: Node, at: Address, i: nat): seq<Address>
    requires i <= |n.kids|
    decreases n, |n.kids| - i
  {
    if i == |n.kids| then [] else Preorder(n.kids[i], at + [i]) + PreorderFrom(n, at, i + 1)
  }

  ghost function Sites(root: Node, order: seq<Address>): seq<Address>
    requires WellFormed(root)
  {
    if order == [] then []
    else (if Swallows(root, order[0]) then [order[0]] else []) + Sites(root, order[1..])
  }

  lemma {:induction false} SitesAppend(root: Node, a: seq<Address>, b: seq<Address>)
    requires WellFormed(root)
    ensures Sites(root, a + b) == Sites(root, a) + Sites(root, b)
  {
    hide Swallows;
    if a == [] {
      assert a + b == b;
    } else {
      var first := if Swallows(root, a[0]) then [a[0]] else [];
      var rest := a[1..];
      SitesAppend(root, rest, b);
      assert (a + b)[0] == a[0] && (a + b)[1..] == rest + b;
      assert Sites(root, a + b) == first + Sites(root, rest + b);
      assert Sites(root, a) == first + Sites(root, rest);
    }
  }

  lemma {:induction false} SitesList(root: Node, order: seq<Address>, a: Address)
    requires WellFormed(root)
    ensures a in Sites(root, order) <==> a in order && Swallows(root, a)
  {
    if order == [] {
    } else {
      SitesList(root, order[1..], a);
    }
  }

  class Visitor {
    const root: Node
    var funcStack: seq<Address>
    var sites: seq<Address>

    constructor (tree: Node)
      ensures root == tree && funcStack == [] && sites == []
    {
      root, funcStack, sites := tree, [], [];
    }

    /** Whether the handler at `a` is a site, given the functions on the stack. */
    method IsSite(a: Address) returns (r: bool)
      requires WellFormed(root) && HasNode(root, a) && At(root, a).kind.Handler?
      requires funcStack == DefsAbove(root, a)
      ensures r <==> Swallows(root, a)
    {
      hide HasNode, NoScopeBetween, DefsAbove, IsNearestDef, AssignOnly, Binds, MentionsName, WellFormed;
      var bound := HandlerBoundNames(At(root, a));
      forall d ensures IsNearestDef(root, a, d) <==> funcStack != [] && funcStack[|funcStack| - 1] == d {
        TopIsNearest(root, a, d);
      }
      if bound.None? || funcStack == [] {
        return false;
      }
      var d := funcStack[|funcStack| - 1];
      assert IsNearestDef(root, a, d) && d in funcStack;
      var f := At(root, d);
      var collected := CollectReturns(f, [], []);
      assert forall b: Address :: [] + b == b;
      assert forall b :: b in collected <==> IsOwnReturn(f, b);
      for i := 0 to |collected|
        invariant forall b, x :: b in collected[..i] && x in bound.value ==> !ReturnsName(f, b, x)
      {
        var b := collected[i];
        assert b in collected && collected[..i + 1] == collected[..i] + [b];
        var mentions := ReturnReferencesAny(At(f, b), bound.value);
        if mentions {
          ghost var x :| x in bound.value && MentionsName(At(f, b), x);
          assert ReturnsName(f, b, x);
          return true;
        }
      }
      assert collected[..|collected|] == collected;
      r := false;
    }

    /** Visits a subtree: the stack comes back as it was, the sites of the subtree are added in order. */
    method Visit(a: Address, n: Node)
      requires WellFormed(root) && HasNode(root, a) && n == At(root, a)
      requires funcStack == DefsAbove(root, a)
      modifies this
      ensures funcStack == old(funcStack)
      ensures sites == old(sites) + Sites(root, Preorder(n, a))
      decreases n
    {
      hide Swallows, HasNode, DefsAbove, Sites, WellFormed, At;
      var isFunc := n.kind.Def?;
      if isFunc {
        funcStack := funcStack + [a];
      }
      if n.kind.Handler? {
        var found := IsSite(a);
        if found {
          sites := sites + [a];
        }
      }
      SiteOf(root, a);
      SitesAppend(root, [a], PreorderFrom(n, a, 0));
      assert sites == old(sites) + Sites(root, [a]);
      for i := 0 to |n.kids|
        invariant funcStack == old(funcStack) + if isFunc then [a] else []
        invariant sites + Sites(root, PreorderFrom(n, a, i)) == old(sites) + Sites(root, Preorder(n, a))
      {
        DescendStep(root, a, i);
        SitesAppend(root, Preorder(n.kids[i], a + [i]), PreorderFrom(n, a, i + 1));
        Visit(a + [i], n.kids[i]);
      }
      if isFunc {
        funcStack := funcStack[..|funcStack| - 1];
      }
    }
  }

  lemma DescendStep(root: Node, a: Address, i: nat)
    requires HasNode(root, a) && i < |At(root, a).kids|
    ensures HasNode(root, a + [i]) && At(root, a + [i]) == At(root, a).kids[i]
    ensures DefsAbove(root, a + [i]) == DefsAbove(root, a) + if At(root, a).kind.Def? then [a] else []
  {
    AtChild(root, a, i);
    assert (a + [i])[..|a + [i]| - 1] == a;
  }

  lemma SiteOf(root: Node, a: Address)
    requires WellFormed(root) && HasNode(root, a)
    ensures Swallows(root, a) ==> At(root, a).kind.Handler?
    ensures Sites(root, []) == [] && Sites(root, [a]) == if Swallows(root, a) then [a] else []
  {
    assert [a][1..] == [];
  }

  lemma {:induction false} PreorderCovers(root: Node, a: Address, n: Node, i: nat, b: Address)
    requires HasNode(root, a) && n == At(root, a) && i <= |n.kids|
    ensures b in PreorderFrom(n, a, i) <==> HasNode(root, b) && Below(a, b) && |a| < |b| && i <= b[|a|]
    decreases n, |n.kids| - i
  {
    hide HasNode, At, DefsAbove;
    if HasNode(root, b) && Below(a, b) && |a| < |b| {
      ChildOnTheWay(root, a, b);
    }
    if i == |n.kids| {
    } else {
      DescendStep(root, a, i);
      PreorderCovers(root, a, n, i + 1, b);
      PreorderCovers(root, a + [i], n.kids[i], 0, b);
      OneStepDown(a, i, b);
    }
  }

  lemma OneStepDown(a: Address, i: nat, b: Address)
    ensures Below(a + [i], b) <==> Below(a, b) && |a| < |b| && b[|a|] == i
    ensures Below(a + [i], b) ==> b == a + [i] || |a + [i]| < |b|
  {
    if Below(a + [i], b) {
      BelowTrans(a, a + [i], b);
    }
  }

  /** `find_violation_sites`: the handlers of the file that swallow, in source order, and no others. */
  method FindViolationSites(tree: Node) returns (sites: seq<Address>)
    requires WellFormed(tree)
    ensures sites == Sites(tree, Preorder(tree, []))
    ensures forall a :: a in sites <==> Swallows(tree, a)
  {
    hide Swallows, Sites, Preorder;
    var visitor := new Visitor(tree);
    visitor.Visit([], tree);
    sites := visitor.sites;
    forall a ensures a in sites <==> Swallows(tree, a) {
      SitesList(tree, Preorder(tree, []), a);
      SwallowerIsVisited(tree, a);
    }
  }

  lemma SwallowerIsVisited(tree: Node, a: Address)
    requires WellFormed(tree)
    ensures Swallows(tree, a) ==> a in Preorder(tree, [])
  {
    if Swallows(tree, a) {
      PreorderCovers(tree, [], tree, 0, a);
    }
  }

  // ---- what stays outside ----

  /** A handler at module level is never a site. */
  lemma ModuleLevelIsSilent(root: Node, a: Address)
    requires WellFormed(root) && HasNode(root, a) && DefsAbove(root, a) == []
    ensures !Swallows(root, a)
  {
    forall d ensures !IsNearestDef(root, a, d) {
      TopIsNearest(root, a, d);
    }
  }
}
