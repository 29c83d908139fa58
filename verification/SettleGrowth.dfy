/** Writing `await settle()` into a function never adds a flag. */
module SettleGrowth {
  import opened Syntax
  import opened SettleGate

  // ---- one function grown from another ----

  /** A leaf that the gate does not look at, such as a `pass` statement. */
  predicate IsInert(n: Node) {
    n.kind.Other? && n.kids == []
  }

  function AwaitSettle(line: nat): Node {
    Node(Await, line, [CallOf("settle", line)])
  }

  /** The awaited call as an expression, or as a statement of its own. */
  predicate IsSettle(m: Node) {
    m == AwaitSettle(m.line) || m == Node(Other, m.line, [AwaitSettle(m.line)])
  }

  /**
    Where the children of a node have gone, and how they have grown themselves. The places are positions among
    the children of the grown node; the children in between are new.
   */
  datatype Growth = Growth(places: seq<nat>, parts: seq<Growth>)

  predicate Rising(places: seq<nat>) {
    forall i, j :: 0 <= i < j < |places| ==> places[i] < places[j]
  }

  /** Statements can be written into these nodes; the children of the others stay where they are. */
  predicate HasBlock(k: Kind) {
    k.Def? || k.While? || k.Handler? || k.Other?
  }

  predicate InPlace(n: Node, m: Node, g: Growth) {
    |n.kids| == |m.kids| && forall i :: 0 <= i < |g.places| ==> g.places[i] == i
  }

  /** A loop keeps its test, and its body keeps its statements; a handler keeps its type. */
  predicate KindGrown(n: Node, m: Node, g: Growth)
    requires |g.places| == |n.kids|
  {
    match n.kind
    case While(body) =>
      m.kind.While? && 1 + m.kind.body <= |m.kids| && (n.kids != [] ==> g.places[0] == 0) &&
      forall i :: 0 <= i < |n.kids| ==> (1 <= i <= body <==> 1 <= g.places[i] <= m.kind.body)
    case Handler(typed) => m.kind == n.kind && (typed && n.kids != [] ==> g.places[0] == 0)
    case _ => m.kind == n.kind && (HasBlock(n.kind) || InPlace(n, m, g))
  }

  /**
    `m` is `n` with `await settle()` written in place of some inert leaves, or as new statements between
    the old ones. `f` says which line of `m` a line of `n` has become.
   */
  predicate Grown(n: Node, m: Node, g: Growth, f: nat -> nat)
    decreases n
  {
    m.line == f(n.line) &&
    ((IsInert(n) && IsSettle(m)) ||
     (|g.places| == |g.parts| == |n.kids| && Rising(g.places) && KindGrown(n, m, g) &&
      (forall i :: 0 <= i < |n.kids| ==>
        g.places[i] < |m.kids| && Grown(n.kids[i], m.kids[g.places[i]], g.parts[i], f)) &&
      (forall j :: 0 <= j < |m.kids| ==> j in g.places || IsSettle(m.kids[j]))))
  }

  /** The lines keep their order. */
  ghost predicate KeepsOrder(f: nat -> nat) {
    forall i: nat, j: nat :: i < j ==> f(i) < f(j)
  }

  /** A node that was not there before. */
  predicate IsNew(k: Node) {
    IsSettle(k) || k == CallOf("settle", k.line) || k == NameNode("settle", true, k.line)
  }

  /** Where the node at `a` has gone. */
  function Moved(g: Growth, a: Address): Address {
    if a == [] || |g.places| <= a[0] || |g.parts| <= a[0] then a
    else [g.places[a[0]]] + Moved(g.parts[a[0]], a[1..])
  }

  function Part(g: Growth, a: Address): Growth {
    if a == [] || |g.parts| <= a[0] then g else Part(g.parts[a[0]], a[1..])
  }

  lemma {:induction false} GrownIsWellFormed(n: Node, m: Node, g: Growth, f: nat -> nat)
    requires WellFormed(n) && Grown(n, m, g, f)
    ensures WellFormed(m)
    decreases n
  {
    if IsInert(n) && IsSettle(m) {
      SettleIsWellFormed(m.line);
    } else {
      forall k | k in m.kids ensures WellFormed(k) {
        var j :| 0 <= j < |m.kids| && m.kids[j] == k;
        if j in g.places {
          var i :| 0 <= i < |g.places| && g.places[i] == j;
          assert n.kids[i] in n.kids;
          GrownIsWellFormed(n.kids[i], k, g.parts[i], f);
        } else {
          SettleIsWellFormed(k.line);
        }
      }
      GrownArity(n, m, g, f);
    }
  }

  lemma {:induction false} GrownArity(n: Node, m: Node, g: Growth, f: nat -> nat)
    requires ArityOk(n) && Grown(n, m, g, f) && !(IsInert(n) && IsSettle(m))
    ensures ArityOk(m)
  {}

  lemma SettleIsWellFormed(line: nat)
    ensures WellFormed(NameNode("settle", true, line)) && WellFormed(CallOf("settle", line))
    ensures WellFormed(AwaitSettle(line)) && WellFormed(Node(Other, line, [AwaitSettle(line)]))
  {
    assert WellFormed(NameNode("settle", true, line)) && WellFormed(CallOf("settle", line));
  }

  /** A child of an old node that is no block. */
  lemma GrownKid(n: Node, m: Node, g: Growth, f: nat -> nat, i: nat)
    requires Grown(n, m, g, f) && i < |n.kids| && !HasBlock(n.kind)
    ensures m.kind == n.kind && |m.kids| == |n.kids| && i < |g.parts| && i < |g.places| && g.places[i] == i
    ensures Grown(n.kids[i], m.kids[i], g.parts[i], f)
  {}

  lemma GrownStep(n: Node, m: Node, g: Growth, f: nat -> nat, i: nat)
    requires Grown(n, m, g, f) && i < |n.kids|
    ensures i < |g.places| && i < |g.parts| && g.places[i] < |m.kids|
    ensures Grown(n.kids[i], m.kids[g.places[i]], g.parts[i], f)
  {}

  lemma MovedPeels(g: Growth, i: nat, rest: Address)
    requires i < |g.places| && i < |g.parts|
    ensures Moved(g, [i] + rest) == [g.places[i]] + Moved(g.parts[i], rest)
    ensures Part(g, [i] + rest) == Part(g.parts[i], rest)
  {
    assert ([i] + rest)[1..] == rest;
  }

  lemma NothingMoved(g: Growth)
    ensures Moved(g, []) == [] && Part(g, []) == g
  {}

  lemma HasStep(n: Node, q: Address)
    requires HasNode(n, q) && q != []
    ensures q == [q[0]] + q[1..] && q[0] < |n.kids| && HasNode(n.kids[q[0]], q[1..])
    ensures At(n, q) == At(n.kids[q[0]], q[1..])
  {}

  lemma HasCons(n: Node, i: nat, rest: Address)
    requires i < |n.kids| && HasNode(n.kids[i], rest)
    ensures HasNode(n, [i] + rest) && At(n, [i] + rest) == At(n.kids[i], rest)
  {
    assert ([i] + rest)[1..] == rest;
  }

  lemma {:induction false} GrownAt(n: Node, m: Node, g: Growth, f: nat -> nat, q: Address)
    requires Grown(n, m, g, f) && HasNode(n, q)
    ensures HasNode(m, Moved(g, q)) && Grown(At(n, q), At(m, Moved(g, q)), Part(g, q), f)
    decreases |q|
  {
    NothingMoved(g);
    if q == [] {
    } else {
      hide Grown, Moved, Part, HasNode, At;
      var i, rest := q[0], q[1..];
      HasStep(n, q);
      GrownStep(n, m, g, f, i);
      GrownAt(n.kids[i], m.kids[g.places[i]], g.parts[i], f, rest);
      MovedPeels(g, i, rest);
      HasCons(m, g.places[i], Moved(g.parts[i], rest));
    }
  }

  /** A path below an old node is taken apart at that node. */
  lemma {:induction false} MovedAppend(n: Node, m: Node, g: Growth, f: nat -> nat, a: Address, b: Address)
    requires Grown(n, m, g, f) && HasNode(n, a)
    ensures Moved(g, a + b) == Moved(g, a) + Moved(Part(g, a), b)
    decreases |a|
  {
    hide Grown, Moved, Part, HasNode, At;
    if a == [] {
      NothingMoved(g);
      assert a + b == b && [] + Moved(g, b) == Moved(g, b);
    } else {
      var i, rest := a[0], a[1..];
      HasStep(n, a);
      GrownStep(n, m, g, f, i);
      MovedAppend(n.kids[i], m.kids[g.places[i]], g.parts[i], f, rest, b);
      MovedPeels(g, i, rest);
      MovedPeels(g, i, rest + b);
      assert a + b == [i] + (rest + b);
    }
  }

  lemma MovedBelow(n: Node, m: Node, g: Growth, f: nat -> nat, a: Address, b: Address)
    requires Grown(n, m, g, f) && HasNode(n, a) && Below(a, b)
    ensures Below(Moved(g, a), Moved(g, b))
  {
    assert b == a + b[|a|..];
    MovedAppend(n, m, g, f, a, b[|a|..]);
  }

  lemma MovedChild(n: Node, m: Node, g: Growth, f: nat -> nat, a: Address, i: nat)
    requires Grown(n, m, g, f) && HasNode(n, a) && i < |At(n, a).kids|
    ensures i < |Part(g, a).places| && Moved(g, a + [i]) == Moved(g, a) + [Part(g, a).places[i]]
  {
    hide Grown, Moved, Part, HasNode, At;
    GrownAt(n, m, g, f, a);
    MovedAppend(n, m, g, f, a, [i]);
    GrownStep(At(n, a), At(m, Moved(g, a)), Part(g, a), f, i);
    MovedPeels(Part(g, a), i, []);
    NothingMoved(Part(g, a).parts[i]);
    assert [i] + [] == [i];
  }

  /** Every node of the grown function was there before, or is part of a new `await settle()`. */
  lemma {:induction false} GrownFrom(n: Node, m: Node, g: Growth, f: nat -> nat, q: Address) returns (a: Address)
    requires Grown(n, m, g, f) && HasNode(m, q)
    ensures IsNew(At(m, q)) || (HasNode(n, a) && Moved(g, a) == q && Grown(At(n, a), At(m, q), Part(g, a), f))
    decreases |q|
  {
    NothingMoved(g);
    a := [];
    if q == [] {
    } else {
      hide Moved, Part, At, Grown;
      HasStep(m, q);
      var before, i := KidFrom(n, m, g, f, q[0]);
      if before {
        var rest := GrownFrom(n.kids[i], m.kids[q[0]], g.parts[i], f, q[1..]);
        a := [i] + rest;
        if !IsNew(At(m, q)) {
          MovedPeels(g, i, rest);
          HasCons(n, i, rest);
        }
      } else {
        PartsAreNew(m.kids[q[0]], q[1..]);
      }
    }
  }

  /** A child of a grown node is an old one or begins something new. */
  lemma KidFrom(n: Node, m: Node, g: Growth, f: nat -> nat, j: nat) returns (before: bool, i: nat)
    requires Grown(n, m, g, f) && j < |m.kids|
    ensures before ==> i < |n.kids| && i < |g.places| && i < |g.parts| && g.places[i] == j
    ensures before ==> Grown(n.kids[i], m.kids[j], g.parts[i], f)
    ensures !before ==> IsNew(m.kids[j])
  {
    i := 0;
    before := !(IsInert(n) && IsSettle(m)) && j in g.places;
    if before {
      i :| 0 <= i < |g.places| && g.places[i] == j;
    }
  }

  lemma {:induction false} PartsAreNew(k: Node, q: Address)
    requires IsNew(k) && HasNode(k, q)
    ensures IsNew(At(k, q))
    decreases |q|
  {
    if q == [] {
    } else {
      assert IsNew(k.kids[q[0]]);
      PartsAreNew(k.kids[q[0]], q[1..]);
    }
  }

  // ---- what the gate sees of a grown node ----

  lemma GrownCall(n: Node, m: Node, g: Growth, f: nat -> nat)
    requires WellFormed(n) && WellFormed(m) && Grown(n, m, g, f)
    ensures AppendTarget(m) == AppendTarget(n) && IsEmit(m) == IsEmit(n)
  {
    if n.kind.Call? || n.kind.Attribute? {
      GrownKid(n, m, g, f, 0);
      SameLine(n.kids[0], m.kids[0], g.parts[0], f);
    } else {
      SameLine(n, m, g, f);
    }
  }

  lemma GrownSubscription(n: Node, m: Node, g: Growth, f: nat -> nat)
    requires WellFormed(n) && WellFormed(m) && Grown(n, m, g, f)
    ensures Subscribes(m) == Subscribes(n) && SubscribesByName(m) == SubscribesByName(n)
    ensures Subscribes(m) ==> SubscribedName(m.kids[1]) == SubscribedName(n.kids[1])
  {
    hide Grown, SubscribedName, AppendTarget;
    SameLine(n, m, g, f);
    if n.kind.Call? {
      GrownKid(n, m, g, f, 0);
      SameLine(n.kids[0], m.kids[0], g.parts[0], f);
      if n.kind.args > 0 {
        GrownKid(n, m, g, f, 1);
        assert n.kids[1] in n.kids && m.kids[1] in m.kids;
        GrownCall(n.kids[1], m.kids[1], g.parts[1], f);
        GrownArgument(n.kids[1], m.kids[1], g.parts[1], f);
      }
    }
  }

  lemma GrownArgument(n: Node, m: Node, g: Growth, f: nat -> nat)
    requires WellFormed(n) && WellFormed(m) && Grown(n, m, g, f)
    ensures SubscribedName(m) == SubscribedName(n)
  {
    hide Grown, AppendTarget;
    SameLine(n, m, g, f);
    if n.kind.Lambda? {
      var i := |n.kids| - 1;
      GrownKid(n, m, g, f, i);
      assert n.kids[i] in n.kids && m.kids[i] in m.kids;
      GrownLambdaBody(n.kids[i], m.kids[i], g.parts[i], f);
    } else {
      GrownCall(n, m, g, f);
    }
  }

  lemma GrownLambdaBody(b: Node, c: Node, g: Growth, f: nat -> nat)
    requires WellFormed(b) && WellFormed(c) && Grown(b, c, g, f)
    ensures b.kind.Call? <==> c.kind.Call?
    ensures b.kind.Call? ==> AppendTarget(b.kids[0]) == AppendTarget(c.kids[0])
  {
    hide Grown, AppendTarget;
    SameLine(b, c, g, f);
    if b.kind.Call? {
      GrownKid(b, c, g, f, 0);
      assert b.kids[0] in b.kids && c.kids[0] in c.kids;
      GrownCall(b.kids[0], c.kids[0], g.parts[0], f);
    }
  }

  lemma GrownYield(n: Node, m: Node, g: Growth, f: nat -> nat, helpers: set<string>)
    requires WellFormed(n) && WellFormed(m) && Grown(n, m, g, f) && IsYieldPoint(n, helpers)
    ensures IsYieldPoint(m, helpers)
  {
    hide Grown;
    GrownKid(n, m, g, f, 0);
    var c, d := n.kids[0], m.kids[0];
    assert c in n.kids;
    SameLine(c, d, g.parts[0], f);
    GrownKid(c, d, g.parts[0], f, 0);
    var e, h := c.kids[0], d.kids[0];
    SameLine(e, h, g.parts[0].parts[0], f);
    if e.kind.Attribute? && e.kids != [] {
      GrownKid(e, h, g.parts[0].parts[0], f, 0);
      SameLine(e.kids[0], h.kids[0], g.parts[0].parts[0].parts[0], f);
    }
  }

  /** A binding stays one, with the grown value and the grown targets. */
  lemma GrownBinding(n: Node, m: Node, g: Growth, f: nat -> nat) returns (value: Growth, targets: seq<Growth>)
    requires WellFormed(n) && WellFormed(m) && Grown(n, m, g, f) && IsBinding(m)
    ensures IsBinding(n) && WellFormed(BoundValue(n)) && WellFormed(BoundValue(m))
    ensures Grown(BoundValue(n), BoundValue(m), value, f) && |Targets(n)| == |Targets(m)| == |targets|
    ensures forall i :: 0 <= i < |Targets(n)| ==> Grown(Targets(n)[i], Targets(m)[i], targets[i], f)
  {
    hide Grown;
    SameLine(n, m, g, f);
    SamePart(n, m, g, f);
    forall i: nat | i < |n.kids| ensures |m.kids| == |n.kids| == |g.parts| && Grown(n.kids[i], m.kids[i], g.parts[i], f) {
      GrownKid(n, m, g, f, i);
    }
    value := g.parts[|n.kids| - 1];
    targets := g.parts[..|Targets(n)|];
  }

  lemma SamePart(n: Node, m: Node, g: Growth, f: nat -> nat)
    requires Grown(n, m, g, f) && n.kids != []
    ensures |g.parts| == |n.kids|
  {}

  lemma GrownSeeds(n: Node, m: Node, g: Growth, f: nat -> nat)
    requires WellFormed(n) && WellFormed(m) && Grown(n, m, g, f)
    ensures Seeds(m) <= Seeds(n)
  {
    hide Grown, WellFormed, Subscribes, SubscribedName, BoundValue, Targets;
    GrownSubscription(n, m, g, f);
    if IsBinding(m) {
      var value, targets := GrownBinding(n, m, g, f);
      GrownCollect(BoundValue(n), BoundValue(m), value, f);
      forall t | t in Targets(m) && t.kind.Name? ensures exists u :: u in Targets(n) && u.kind == t.kind {
        var i :| 0 <= i < |Targets(m)| && Targets(m)[i] == t;
        NameIsOld(Targets(n)[i], t, targets[i], f);
        assert Targets(n)[i] in Targets(n);
      }
    }
  }

  lemma NameIsOld(n: Node, m: Node, g: Growth, f: nat -> nat)
    requires Grown(n, m, g, f) && m.kind.Name?
    ensures n.kind == m.kind
  {}

  lemma GrownCollect(n: Node, m: Node, g: Growth, f: nat -> nat)
    requires WellFormed(n) && WellFormed(m) && Grown(n, m, g, f)
    ensures CollectsEvents(m) ==> CollectsEvents(n)
  {
    hide Grown;
    SameLine(n, m, g, f);
    if CollectsEvents(m) {
      GrownKid(n, m, g, f, 0);
      SameLine(n.kids[0], m.kids[0], g.parts[0], f);
    }
  }

  lemma NewIsIgnored(k: Node)
    requires IsNew(k)
    ensures WellFormed(k) && Seeds(k) == {} && !IsBinding(k) && !IsEmit(k)
    ensures k.kind.Name? ==> k.kind.id == "settle"
  {
    SettleIsWellFormed(k.line);
  }

  // ---- names and flows ----

  lemma GrownLoads(n: Node, m: Node, g: Growth, f: nat -> nat, x: string)
    requires Grown(n, m, g, f) && LoadsName(m, x) && x != "settle"
    ensures LoadsName(n, x)
  {
    hide Grown, HasNode, At;
    var q :| HasNode(m, q) && At(m, q).kind == Name(x, true);
    var a := GrownFrom(n, m, g, f, q);
    if IsNew(At(m, q)) {
      NewIsIgnored(At(m, q));
    } else {
      NameIsOld(At(n, a), At(m, q), Part(g, a), f);
    }
  }

  lemma GrownHolds(n: Node, m: Node, g: Growth, f: nat -> nat, y: string)
    requires Grown(n, m, g, f) && HoldsName(m, y) && y != "settle"
    ensures HoldsName(n, y)
  {
    hide Grown, HasNode, At;
    var q :| HasNode(m, q) && At(m, q).kind.Name? && At(m, q).kind.id == y;
    var a := GrownFrom(n, m, g, f, q);
    if IsNew(At(m, q)) {
      NewIsIgnored(At(m, q));
    } else {
      NameIsOld(At(n, a), At(m, q), Part(g, a), f);
    }
  }

  lemma GrownCarries(n: Node, m: Node, g: Growth, f: nat -> nat, x: string, y: string)
    requires WellFormed(n) && Grown(n, m, g, f) && Carries(m, x, y) && x != "settle" && y != "settle"
    ensures Carries(n, x, y)
  {
    hide Grown, LoadsName, HoldsName;
    SameLine(n, m, g, f);
    var last := |m.kids| - 1;
    SameKids(n, m, g, f);
    GrownKid(n, m, g, f, last);
    GrownLoads(n.kids[last], m.kids[last], g.parts[last], f, x);
    if m.kind.Assign? {
      var i: nat :| i < m.kind.targets && HoldsName(m.kids[i], y);
      GrownKid(n, m, g, f, i);
      GrownHolds(n.kids[i], m.kids[i], g.parts[i], f, y);
    } else {
      GrownKid(n, m, g, f, 0);
      GrownHolds(n.kids[0], m.kids[0], g.parts[0], f, y);
    }
  }

  lemma SameKids(n: Node, m: Node, g: Growth, f: nat -> nat)
    requires Grown(n, m, g, f) && IsBinding(m)
    ensures n.kind == m.kind && |n.kids| == |m.kids|
  {}

  lemma GrownFlow(n: Node, m: Node, g: Growth, f: nat -> nat, x: string, y: string)
    requires WellFormed(n) && Grown(n, m, g, f) && Flows(m, x, y) && x != "settle" && y != "settle"
    ensures Flows(n, x, y)
  {
    hide Grown, HasNode, At, WellFormed, Carries;
    var q :| HasNode(m, q) && Carries(At(m, q), x, y);
    var a := GrownFrom(n, m, g, f, q);
    if IsNew(At(m, q)) {
      NewCarriesNothing(At(m, q), x, y);
    } else {
      GrownCarries(At(n, a), At(m, q), Part(g, a), f, x, y);
    }
  }

  lemma NewCarriesNothing(k: Node, x: string, y: string)
    requires IsNew(k)
    ensures !Carries(k, x, y) && !MakesList(k, x)
  {
    NewIsIgnored(k);
    SeedsAre(k, x);
  }

  lemma GrownSeed(n: Node, m: Node, g: Growth, f: nat -> nat, x: string)
    requires WellFormed(n) && WellFormed(m) && Grown(n, m, g, f) && IsSeed(m, x)
    ensures IsSeed(n, x)
  {
    hide Grown, HasNode, At, WellFormed, Seeds, MakesList;
    var q :| HasNode(m, q) && MakesList(At(m, q), x);
    var a := GrownFrom(n, m, g, f, q);
    if IsNew(At(m, q)) {
      NewCarriesNothing(At(m, q), x, x);
    } else {
      GrownSeeds(At(n, a), At(m, q), Part(g, a), f);
      SeedsAre(At(n, a), x);
      SeedsAre(At(m, q), x);
    }
  }

  /** When `settle` itself holds no event list, the new calls taint nothing. */
  lemma GrownTaint(n: Node, m: Node, g: Growth, f: nat -> nat, x: string)
    requires WellFormed(n) && WellFormed(m) && Grown(n, m, g, f) && !Tainted(m, "settle") && Tainted(m, x)
    ensures Tainted(n, x)
  {
    hide Flows, IsSeed, WellFormed, Grown;
    var p :| IsFlow(m, p) && p[|p| - 1] == x;
    forall i | 0 <= i < |p| ensures p[i] != "settle" {
      var q := p[..i + 1];
      assert IsFlow(m, q) && q[|q| - 1] == p[i];
    }
    GrownSeed(n, m, g, f, p[0]);
    forall i | 0 < i < |p| ensures Flows(n, p[i - 1], p[i]) {
      GrownFlow(n, m, g, f, p[i - 1], p[i]);
    }
    assert IsFlow(n, p);
  }

  // ---- flags ----

  lemma GrownRead(n: Node, m: Node, g: Growth, f: nat -> nat, q: Address) returns (a: Address)
    requires WellFormed(n) && WellFormed(m) && Grown(n, m, g, f) && !Tainted(m, "settle") && IsTaintedRead(m, q)
    ensures IsTaintedRead(n, a) && Moved(g, a) == q
    ensures At(m, q).line == f(At(n, a).line) && At(n, a).kind == At(m, q).kind
  {
    hide Grown, HasNode, At, WellFormed, Tainted;
    a := GrownFrom(n, m, g, f, q);
    if IsNew(At(m, q)) {
      NewIsIgnored(At(m, q));
    } else {
      NameIsOld(At(n, a), At(m, q), Part(g, a), f);
      SameLine(At(n, a), At(m, q), Part(g, a), f);
      GrownTaint(n, m, g, f, At(m, q).kind.id);
    }
  }

  /** An old node has its new line; a leaf may have become `await settle()`, a loop body may be longer. */
  lemma SameLine(n: Node, m: Node, g: Growth, f: nat -> nat)
    requires Grown(n, m, g, f)
    ensures m.line == f(n.line)
    ensures !n.kind.Other? && !n.kind.While? ==> n.kind == m.kind
    ensures n.kind.Other? ==> m.kind.Other? || m.kind.Await?
    ensures m.kind.While? <==> n.kind.While?
    ensures m.kind.Await? && n.kind.Other? ==> m == AwaitSettle(m.line)
  {}

  lemma GrownLambda(n: Node, m: Node, g: Growth, f: nat -> nat, a: Address)
    requires WellFormed(n) && WellFormed(m) && Grown(n, m, g, f) && HasNode(n, a) && InLambda(n, a)
    ensures HasNode(m, Moved(g, a)) && InLambda(m, Moved(g, a))
  {
    hide Grown, HasNode, At, WellFormed, Moved, Part;
    var p :| HasNode(n, p) && At(n, p).kind.Lambda? && Below(p, a);
    GrownAt(n, m, g, f, a);
    GrownAt(n, m, g, f, p);
    SameLine(At(n, p), At(m, Moved(g, p)), Part(g, p), f);
    MovedBelow(n, m, g, f, p, a);
  }

  /** The test of a loop keeps its place, and so does a statement of its body up to new ones. */
  lemma GrownLoop(n: Node, m: Node, g: Growth, f: nat -> nat, i: nat)
    requires WellFormed(n) && Grown(n, m, g, f) && n.kind.While? && i <= n.kind.body
    ensures m.kind.While? && i < |g.places| && (i == 0 ==> g.places[i] == 0) && (i > 0 ==> 1 <= g.places[i] <= m.kind.body)
  {}

  lemma GrownPoll(n: Node, m: Node, g: Growth, f: nat -> nat, helpers: set<string>, a: Address)
    requires WellFormed(n) && WellFormed(m) && Grown(n, m, g, f) && InPollCondition(n, helpers, a)
    ensures InPollCondition(m, helpers, Moved(g, a))
  {
    hide Grown, HasNode, At, WellFormed, YieldsInBody, Moved, Part;
    var p :| HasNode(n, p) && At(n, p).kind.While? && Below(p + [0], a) && YieldsInBody(n, helpers, p);
    GrownBody(n, m, g, f, helpers, p);
    LoopTest(n, p);
    MovedChild(n, m, g, f, p, 0);
    GrownAt(n, m, g, f, p);
    GrownLoop(At(n, p), At(m, Moved(g, p)), Part(g, p), f, 0);
    MovedBelow(n, m, g, f, p + [0], a);
  }

  lemma LoopTest(n: Node, p: Address)
    requires WellFormed(n) && HasNode(n, p) && At(n, p).kind.While?
    ensures |At(n, p).kids| >= 1 + At(n, p).kind.body && HasNode(n, p + [0])
  {
    AtChild(n, p, 0);
  }

  lemma GrownRegistration(n: Node, m: Node, g: Growth, f: nat -> nat, a: Address)
    requires WellFormed(n) && WellFormed(m) && Grown(n, m, g, f) && IsRegistration(n, a)
    ensures IsRegistration(m, Moved(g, a))
  {
    hide Grown, HasNode, At, WellFormed, SubscribesByName, Moved, Part;
    var call := a[..|a| - 2];
    GrownAt(n, m, g, f, call);
    GrownSubscription(At(n, call), At(m, Moved(g, call)), Part(g, call), f);
    MovedAppend(n, m, g, f, call, [1, 0]);
    ListStaysInPlace(At(n, call), At(m, Moved(g, call)), Part(g, call), f);
    var b := Moved(g, call) + [1, 0];
    assert b[..|b| - 2] == Moved(g, call);
  }

  /** The named list is still the first part of the first argument. */
  lemma ListStaysInPlace(n: Node, m: Node, g: Growth, f: nat -> nat)
    requires WellFormed(n) && Grown(n, m, g, f) && SubscribesByName(n)
    ensures Moved(g, [1, 0]) == [1, 0]
  {
    hide Grown;
    GrownKid(n, m, g, f, 1);
    assert n.kids[1] in n.kids;
    GrownKid(n.kids[1], m.kids[1], g.parts[1], f, 0);
    assert [1, 0][1..] == [0] && [0][1..] == [];
    assert Moved(g.parts[1], [0]) == [0] + Moved(g.parts[1].parts[0], []);
    assert Moved(g, [1, 0]) == [1] + Moved(g.parts[1], [0]);
  }

  lemma GrownBody(n: Node, m: Node, g: Growth, f: nat -> nat, helpers: set<string>, p: Address)
    requires WellFormed(n) && WellFormed(m) && Grown(n, m, g, f) && HasNode(n, p) && At(n, p).kind.While?
    requires YieldsInBody(n, helpers, p)
    ensures HasNode(m, Moved(g, p)) && At(m, Moved(g, p)).kind.While? && YieldsInBody(m, helpers, Moved(g, p))
  {
    hide Grown, HasNode, At, WellFormed, IsYieldPoint, Moved, Part;
    GrownAt(n, m, g, f, p);
    var j: nat, q :| 1 <= j <= At(n, p).kind.body && HasNode(n, q) && Below(p + [j], q) && IsYieldPoint(At(n, q), helpers);
    GrownLoop(At(n, p), At(m, Moved(g, p)), Part(g, p), f, j);
    LoopTest(n, p);
    AtChild(n, p, j);
    MovedChild(n, m, g, f, p, j);
    MovedBelow(n, m, g, f, p + [j], q);
    GrownAt(n, m, g, f, q);
    GrownYield(At(n, q), At(m, Moved(g, q)), Part(g, q), f, helpers);
  }

  lemma GrownEmits(n: Node, m: Node, g: Growth, f: nat -> nat, line: nat)
    requires WellFormed(n) && WellFormed(m) && Grown(n, m, g, f) && KeepsOrder(f)
    requires BeforeEveryEmit(n, line)
    ensures BeforeEveryEmit(m, f(line))
  {
    hide Grown, HasNode, At, WellFormed, IsEmit, Moved, Part;
    var e :| HasNode(n, e) && IsEmit(At(n, e));
    GrownAt(n, m, g, f, e);
    GrownCall(At(n, e), At(m, Moved(g, e)), Part(g, e), f);
    forall q | HasNode(m, q) && IsEmit(At(m, q)) ensures f(line) < At(m, q).line {
      var a := GrownFrom(n, m, g, f, q);
      if IsNew(At(m, q)) {
        NewIsIgnored(At(m, q));
      } else {
        GrownCall(At(n, a), At(m, q), Part(g, a), f);
        SameLine(At(n, a), At(m, q), Part(g, a), f);
      }
    }
  }

  lemma GrownYields(n: Node, m: Node, g: Growth, f: nat -> nat, helpers: set<string>, line: nat)
    requires WellFormed(n) && WellFormed(m) && Grown(n, m, g, f) && KeepsOrder(f)
    requires AfterSomeYield(n, helpers, line)
    ensures AfterSomeYield(m, helpers, f(line))
  {
    hide Grown, HasNode, At, WellFormed, IsYieldPoint, Moved, Part;
    var q :| HasNode(n, q) && IsYieldPoint(At(n, q), helpers) && At(n, q).line < line;
    GrownAt(n, m, g, f, q);
    GrownYield(At(n, q), At(m, Moved(g, q)), Part(g, q), f, helpers);
    SameLine(At(n, q), At(m, Moved(g, q)), Part(g, q), f);
  }

  lemma GrownRace(n: Node, m: Node, g: Growth, f: nat -> nat, helpers: set<string>, q: Address) returns (a: Address)
    requires WellFormed(n) && WellFormed(m) && Grown(n, m, g, f) && KeepsOrder(f)
    requires !Tainted(m, "settle") && Races(m, helpers, q)
    ensures Races(n, helpers, a) && At(m, q).line == f(At(n, a).line) && At(n, a).kind == At(m, q).kind
  {
    hide Grown, At, WellFormed, Tainted, InLambda, InPollCondition, IsRegistration, Moved, KeepsOrder;
    hide BeforeEveryEmit, AfterSomeYield;
    a := GrownRead(n, m, g, f, q);
    ReadIsNode(n, a);
    if InLambda(n, a) {
      GrownLambda(n, m, g, f, a);
    }
    if InPollCondition(n, helpers, a) {
      GrownPoll(n, m, g, f, helpers, a);
    }
    if IsRegistration(n, a) {
      GrownRegistration(n, m, g, f, a);
    }
    if BeforeEveryEmit(n, At(n, a).line) {
      GrownEmits(n, m, g, f, At(n, a).line);
    }
    if AfterSomeYield(n, helpers, At(n, a).line) {
      GrownYields(n, m, g, f, helpers, At(n, a).line);
    }
  }

  /**
    Writing `await settle()` anywhere, as new statements or in place of inert leaves, adds no flag, unless
    `settle` is itself a name that holds an event list: every report of the new function is a report of the old
    one, on the line that has moved there.
   */
  lemma NewSettleAddsNoFlag(n: Node, m: Node, g: Growth, f: nat -> nat, helpers: set<string>, line: nat, x: string)
    requires WellFormed(n) && Grown(n, m, g, f) && KeepsOrder(f)
    ensures WellFormed(m)
    ensures !Tainted(m, "settle") && (line, x) in Report(m, helpers, Walk(m, [])) ==>
      exists l: nat :: f(l) == line && (l, x) in Report(n, helpers, Walk(n, []))
  {
    hide Grown, At, WellFormed, Tainted, Walk, Report, KeepsOrder;
    hide InLambda, InPollCondition, IsRegistration, BeforeEveryEmit, AfterSomeYield;
    GrownIsWellFormed(n, m, g, f);
    if !Tainted(m, "settle") && (line, x) in Report(m, helpers, Walk(m, [])) {
      ReportMeans(m, helpers, line, x);
      var q :| Races(m, helpers, q) && At(m, q).line == line && At(m, q).kind.id == x;
      var a := GrownRace(n, m, g, f, helpers, q);
      ReadIsNode(n, a);
      ReportMeans(n, helpers, At(n, a).line, x);
    }
  }

  lemma ReadIsNode(root: Node, a: Address)
    requires WellFormed(root) && IsTaintedRead(root, a)
    ensures HasNode(root, a) && At(root, a).kind.Name?
  {}
}
